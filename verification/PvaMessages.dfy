/** Interpretation of PVA discovery payloads. */
module PvaMessages {
  import opened Bytes
  import opened NetIp
  import opened Wrappers
  import opened Pva
  import opened PvaReader

  datatype Transport = Udp | Tcp
  datatype Direction = ToServer | FromServer

  /** The interpreted fields of one message; the Go observation keeps the others at zero. */
  datatype Body =
    | NoBody
    | SearchBody(sequenceId: i32, replyRequired: bool, unicast: bool, responseAddr: Addr, responsePort: u16,
                 protocols: seq<seq<byte>>, channels: seq<Channel>)
    | ResponseBody(guid: seq<byte>, sequenceId: i32, serverAddr: Addr, serverPort: u16, protocol: seq<byte>,
                   found: bool, instanceIds: seq<i32>)
    | BeaconBody(guid: seq<byte>, beaconSeq: byte, changeCount: u16, serverAddr: Addr, serverPort: u16,
                 protocol: seq<byte>, statusPresent: bool)
    | ValidationRequestBody(bufferSize: i32, registryMax: int, authNz: seq<seq<byte>>)
    | ValidationResponseBody(bufferSize: i32, registryMax: int, qos: int, auth: seq<byte>)
    | CreateRequestBody(channels: seq<Channel>)
    | CreateResponseBody(clientChanId: i32, serverChanId: i32, statusOk: bool)
    | ValidatedBody(statusOk: bool)

  /** A body read from a payload that may have ended too early. */
  datatype Decoded = Decoded(body: Body, malformed: bool)

  datatype Observation = Observation(
    msg: Message, transport: Transport, src: Addr, dst: Addr, srcPort: u16, dstPort: u16, direction: Direction, decoded: Decoded)

  datatype Kind = Search | SearchResponse | Beacon | CreateChannel | CreateChannelResponse
                | ValidationRequest | ValidationResponse | Control(code: byte) | OtherKind(command: byte)

  function KindOf(o: Observation): Kind {
    var c := o.msg.h.command;
    if o.msg.h.Control() then Control(c)
    else if c == CMD_CREATE_CHANNEL then (if o.direction == FromServer then CreateChannelResponse else CreateChannel)
    else if c == CMD_VALIDATION then (if o.direction == FromServer then ValidationRequest else ValidationResponse)
    else if c == CMD_SEARCH then Search
    else if c == CMD_SEARCH_RESPONSE then SearchResponse
    else if c == CMD_BEACON then Beacon
    else OtherKind(c)
  }

  /** The all-zero server address stands for the sender. */
  function ResolveAddr(a: Addr, src: Addr): Addr {
    if !a.IsValid() || a.IsUnspecified() then src else a
  }

  const START := Cursor(0, false)

  // ---------------------------------------------------------------- what each payload decodes to

  function SearchOf(b: seq<byte>, big: bool): Decoded {
    var (id, c1) := ReadI32(b, big, START);
    var (flags, c2) := ReadByte(b, c1);
    var (addr, c4) := ReadAddr(b, AfterSkip(b, c2, 3));
    var (port, c5) := ReadU16(b, big, c4);
    var (n, c6) := ReadSize(b, big, c5);
    var (protocols, c7) := ReadStrs(b, big, c6, n);
    var (count, c8) := ReadU16(b, big, c7);
    var (channels, c9) := ReadChannels(b, big, c8, count, true);
    Decoded(SearchBody(id, flags % 2 == 1, flags / 0x80 == 1, addr, port, protocols, channels), c9.failed)
  }

  function ResponseOf(b: seq<byte>, big: bool, src: Addr): Decoded {
    var (guid, c1) := Take(b, START, GUID_LEN);
    var (id, c2) := ReadI32(b, big, c1);
    var (addr, c3) := ReadAddr(b, c2);
    var (port, c4) := ReadU16(b, big, c3);
    var (protocol, c5) := ReadStr(b, big, c4);
    var (found, c6) := ReadByte(b, c5);
    var (count, c7) := ReadU16(b, big, c6);
    var (ids, c8) := ReadIds(b, big, c7, count);
    Decoded(ResponseBody(guid, id, ResolveAddr(addr, src), port, protocol, found != 0, ids), c8.failed)
  }

  function BeaconOf(b: seq<byte>, big: bool, src: Addr): Decoded {
    var (guid, c1) := Take(b, START, GUID_LEN);
    var (_, c2) := ReadByte(b, c1);
    var (beaconSeq, c3) := ReadByte(b, c2);
    var (change, c4) := ReadU16(b, big, c3);
    var (addr, c5) := ReadAddr(b, c4);
    var (port, c6) := ReadU16(b, big, c5);
    var (protocol, c7) := ReadStr(b, big, c6);
    var (status, c8) := ReadByte(b, c7);
    Decoded(BeaconBody(guid, beaconSeq, change, ResolveAddr(addr, src), port, protocol, status != NULL_FIELD), c8.failed)
  }

  function ValidationOf(b: seq<byte>, big: bool, fromServer: bool): Decoded {
    var (size, c1) := ReadI32(b, big, START);
    var (registry, c2) := ReadI16(b, big, c1);
    if fromServer then
      var (n, c3) := ReadSize(b, big, c2);
      var (auth, c4) := ReadStrs(b, big, c3, n);
      Decoded(ValidationRequestBody(size, registry, auth), c4.failed)
    else
      var (qos, c3) := ReadI16(b, big, c2);
      var (auth, c4) := ReadStr(b, big, c3);
      Decoded(ValidationResponseBody(size, registry, qos, auth), c4.failed)
  }

  function CreateOf(b: seq<byte>, big: bool, fromServer: bool): Decoded {
    if fromServer then
      var (client, c1) := ReadI32(b, big, START);
      var (server, c2) := ReadI32(b, big, c1);
      var (ok, c3) := ReadStatus(b, big, c2);
      Decoded(CreateResponseBody(client, server, ok), c3.failed)
    else
      var (count, c1) := ReadI16(b, big, START);
      var (channels, c2) := ReadChannels(b, big, c1, count, false);
      Decoded(CreateRequestBody(channels), c2.failed)
  }

  function DecodedOf(m: Message, src: Addr): Decoded {
    var b, big, c := m.payload, m.h.BigEndian(), m.h.command;
    if m.h.Control() then Decoded(NoBody, false)
    else if c == CMD_SEARCH then SearchOf(b, big)
    else if c == CMD_SEARCH_RESPONSE then ResponseOf(b, big, src)
    else if c == CMD_BEACON then BeaconOf(b, big, src)
    else if c == CMD_VALIDATION then ValidationOf(b, big, m.h.FromServer())
    else if c == CMD_CREATE_CHANNEL then CreateOf(b, big, m.h.FromServer())
    else if c == CMD_VALIDATED then
      var (ok, c1) := ReadStatus(b, big, START);
      Decoded(ValidatedBody(ok), c1.failed)
    else Decoded(NoBody, false)
  }

  /** The command fixes the direction of the discovery messages; otherwise the server flag tells. */
  function DirectionOf(h: Header): Direction {
    if !h.Control() && (h.command == CMD_SEARCH || h.command == CMD_VALIDATED) then ToServer
    else if !h.Control() && (h.command == CMD_SEARCH_RESPONSE || h.command == CMD_BEACON) then FromServer
    else if h.FromServer() then FromServer else ToServer
  }

  function Interpreted(m: Message, t: Transport, src: Addr, dst: Addr, sp: u16, dp: u16): Observation {
    Observation(m, t, src, dst, sp, dp, DirectionOf(m.h), DecodedOf(m, src))
  }

  // ---------------------------------------------------------------- decoding with a reader

  method Interpret(m: Message, t: Transport, src: Addr, dst: Addr, sp: u16, dp: u16) returns (o: Observation)
    ensures o == Interpreted(m, t, src, dst, sp, dp)
  {
    var direction := if m.h.FromServer() then FromServer else ToServer;
    var decoded := Decoded(NoBody, false);
    if !m.h.Control() {
      var r := new Reader(m.payload, m.h.BigEndian());
      if m.h.command == CMD_SEARCH {
        direction := ToServer;
        decoded := DecodeSearch(r);
      } else if m.h.command == CMD_SEARCH_RESPONSE {
        direction := FromServer;
        decoded := DecodeResponse(r, src);
      } else if m.h.command == CMD_BEACON {
        direction := FromServer;
        decoded := DecodeBeacon(r, src);
      } else if m.h.command == CMD_VALIDATION {
        decoded := DecodeValidation(r, m.h.FromServer());
      } else if m.h.command == CMD_CREATE_CHANNEL {
        decoded := DecodeCreate(r, m.h.FromServer());
      } else if m.h.command == CMD_VALIDATED {
        direction := ToServer;
        var ok := r.Status();
        decoded := Decoded(ValidatedBody(ok), r.failed);
      }
    }
    o := Observation(m, t, src, dst, sp, dp, direction, decoded);
  }

  method DecodeSearch(r: Reader) returns (d: Decoded)
    requires r.At() == START
    modifies r
    ensures d == SearchOf(r.b, r.big)
  {
    var id := r.Int32();
    var flags := r.Byte();
    r.Skip(3);
    var addr := r.Addr();
    var port := r.Uint16();
    var n := r.Size();
    var protocols := r.Strs(n);
    var count := r.Uint16();
    var channels := r.Channels(count, true);
    d := Decoded(SearchBody(id, flags % 2 == 1, flags / 0x80 == 1, addr, port, protocols, channels), r.failed);
  }

  method DecodeResponse(r: Reader, src: Addr) returns (d: Decoded)
    requires r.At() == START
    modifies r
    ensures d == ResponseOf(r.b, r.big, src)
  {
    var guid := r.Bytes(GUID_LEN);
    var id := r.Int32();
    var addr := r.Addr();
    var port := r.Uint16();
    var protocol := r.Str();
    var found := r.Byte();
    var count := r.Uint16();
    var ids := r.Ids(count);
    d := Decoded(ResponseBody(guid, id, ResolveAddr(addr, src), port, protocol, found != 0, ids), r.failed);
  }

  method DecodeBeacon(r: Reader, src: Addr) returns (d: Decoded)
    requires r.At() == START
    modifies r
    ensures d == BeaconOf(r.b, r.big, src)
  {
    var guid := r.Bytes(GUID_LEN);
    var _ := r.Byte();
    var beaconSeq := r.Byte();
    var change := r.Uint16();
    var addr := r.Addr();
    var port := r.Uint16();
    var protocol := r.Str();
    var status := r.Byte();
    d := Decoded(BeaconBody(guid, beaconSeq, change, ResolveAddr(addr, src), port, protocol, status != NULL_FIELD), r.failed);
  }

  method DecodeValidation(r: Reader, fromServer: bool) returns (d: Decoded)
    requires r.At() == START
    modifies r
    ensures d == ValidationOf(r.b, r.big, fromServer)
  {
    var size := r.Int32();
    var registry := r.Int16();
    if fromServer {
      var n := r.Size();
      var auth := r.Strs(n);
      d := Decoded(ValidationRequestBody(size, registry, auth), r.failed);
    } else {
      var qos := r.Int16();
      var auth := r.Str();
      d := Decoded(ValidationResponseBody(size, registry, qos, auth), r.failed);
    }
  }

  method DecodeCreate(r: Reader, fromServer: bool) returns (d: Decoded)
    requires r.At() == START
    modifies r
    ensures d == CreateOf(r.b, r.big, fromServer)
  {
    if fromServer {
      var client := r.Int32();
      var server := r.Int32();
      var ok := r.Status();
      d := Decoded(CreateResponseBody(client, server, ok), r.failed);
    } else {
      var count := r.Int16();
      var channels := r.Channels(count, false);
      d := Decoded(CreateRequestBody(channels), r.failed);
    }
  }

  // ---------------------------------------------------------------- bounded work

  /** The lists a payload of len bytes can decode to. */
  predicate Bounded(len: nat, body: Body) {
    match body
    case SearchBody(_, _, _, _, _, protocols, channels) => |protocols| <= len + 1 && |channels| <= len / 5 + 1
    case ResponseBody(_, _, _, _, _, _, ids) => |ids| <= len / 4 + 1
    case ValidationRequestBody(_, _, auth) => |auth| <= len + 1
    case CreateRequestBody(channels) => |channels| <= len / 5 + 1
    case _ => true
  }

  /** Whatever counts a message declares, what is decoded from it is bounded by its bytes. */
  lemma DecodedWorkBounded(m: Message, src: Addr)
    ensures Bounded(|m.payload|, DecodedOf(m, src).body)
  {
    var b, big := m.payload, m.h.BigEndian();
    if m.h.command == CMD_SEARCH {
      SearchWorkBounded(b, big);
    } else if m.h.command == CMD_SEARCH_RESPONSE {
      ResponseWorkBounded(b, big, src);
    } else if m.h.command == CMD_VALIDATION {
      ValidationWorkBounded(b, big, m.h.FromServer());
    } else if m.h.command == CMD_CREATE_CHANNEL {
      CreateWorkBounded(b, big, m.h.FromServer());
    }
  }

  lemma SearchWorkBounded(b: seq<byte>, big: bool)
    ensures Bounded(|b|, SearchOf(b, big).body)
  {
    var c1 := ReadI32(b, big, START).1;
    var c2 := ReadByte(b, c1).1;
    var c3 := AfterSkip(b, c2, 3);
    var c4 := ReadAddr(b, c3).1;
    var c5 := ReadU16(b, big, c4).1;
    var (n, c6) := ReadSize(b, big, c5);
    var c7 := ReadStrs(b, big, c6, n).1;
    var (count, c8) := ReadU16(b, big, c7);
    StringsAreSticky(b, big, c5);
    StrsBounded(b, big, c6, n);
    ChannelsBounded(b, big, c8, count, true);
  }

  lemma ResponseWorkBounded(b: seq<byte>, big: bool, src: Addr)
    ensures Bounded(|b|, ResponseOf(b, big, src).body)
  {
    var c4 := ReadU16(b, big, ReadAddr(b, ReadI32(b, big, Take(b, START, GUID_LEN).1).1).1).1;
    StringsAreSticky(b, big, c4);
    var (count, c7) := ReadU16(b, big, ReadByte(b, ReadStr(b, big, c4).1).1);
    IdsBounded(b, big, c7, count);
  }

  lemma ValidationWorkBounded(b: seq<byte>, big: bool, fromServer: bool)
    ensures Bounded(|b|, ValidationOf(b, big, fromServer).body)
  {
    var c1 := ReadI32(b, big, START).1;
    var c2 := ReadI16(b, big, c1).1;
    var (n, c3) := ReadSize(b, big, c2);
    FieldsAreSticky(b, big, START, 0);
    FieldsAreSticky(b, big, c1, 0);
    StringsAreSticky(b, big, c2);
    StrsBounded(b, big, c3, n);
  }

  lemma CreateWorkBounded(b: seq<byte>, big: bool, fromServer: bool)
    ensures Bounded(|b|, CreateOf(b, big, fromServer).body)
  {
    var (count, c1) := ReadI16(b, big, START);
    FieldsAreSticky(b, big, START, 0);
    ChannelsBounded(b, big, c1, count, false);
  }
}
