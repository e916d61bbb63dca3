/** EPICS PVAccess messages (internal/epics/pva/pva.go): parsing, interpretation and building. */
module Pva {
  import opened Bytes
  import opened NetIp
  import opened Wrappers
  import opened Stream

  const DEFAULT_UDP_PORT: u16 := 5076
  const DEFAULT_TCP_PORT: u16 := 5075
  const HEADER_LEN := 8
  const MAGIC: byte := 0xCA
  const GUID_LEN := 12
  const ADDR_LEN := 16
  const MAX_CHANNEL_NAME := 500
  const MAX_VERSION: byte := 2

  const FLAG_SERVER: byte := 0x40
  const FLAG_BIG_ENDIAN: byte := 0x80

  const CMD_BEACON: byte := 0x00
  const CMD_VALIDATION: byte := 0x01
  const CMD_SEARCH: byte := 0x03
  const CMD_SEARCH_RESPONSE: byte := 0x04
  const CMD_CREATE_CHANNEL: byte := 0x07
  const CMD_VALIDATED: byte := 0x09
  const LAST_COMMAND: byte := 0x16

  const SEARCH_REPLY_REQUIRED: byte := 0x01
  const SEARCH_UNICAST: byte := 0x80

  const SIZE_NULL: byte := 255
  const SIZE_LONG: byte := 254
  const STATUS_OK: byte := 0xFF
  const NULL_FIELD: byte := 0xFF

  datatype Error = Truncated | BadMagic | BadVersion | UnknownCommand | ReservedFlags | PayloadOverrun

  datatype Header = Header(version: byte, flags: byte, command: byte, payloadSize: u32) {
    predicate BigEndian() {
      flags / 0x80 == 1
    }

    predicate Control() {
      flags % 2 == 1
    }

    predicate FromServer() {
      flags / 0x40 % 2 == 1
    }
  }

  datatype Message = Message(h: Header, payload: seq<byte>)

  // ---------------------------------------------------------------- parsing

  function Order16(big: bool, b: seq<byte>, i: nat): u16
    requires i + 2 <= |b|
  {
    if big then U16(b, i) else U16([b[i + 1], b[i]], 0)
  }

  function Order32(big: bool, b: seq<byte>, i: nat): u32
    requires i + 4 <= |b|
  {
    if big then U32(b, i) else U32(Reverse4(b[i..i + 4]), 0)
  }

  function PutOrder32(big: bool, v: u32): (r: seq<byte>)
    ensures |r| == 4
  {
    if big then Put32(v) else Reverse4(Put32(v))
  }

  function ParseHeader(b: seq<byte>): Result<Header, Error> {
    if |b| < HEADER_LEN then Err(Truncated)
    else if b[0] != MAGIC then Err(BadMagic)
    else if b[1] == 0 || b[1] > MAX_VERSION then Err(BadVersion)
    else if b[2] / 2 % 8 != 0 then Err(ReservedFlags)
    else
      var h := Header(b[1], b[2], b[3], Order32(b[2] / 0x80 == 1, b, 4));
      if !h.Control() && h.command > LAST_COMMAND then Err(UnknownCommand) else Ok(h)
  }

  /** The message at the start of the buffer; a control message has no payload whatever it declares. */
  function ParseOne(b: seq<byte>): Result<Message, Error> {
    match ParseHeader(b)
    case Err(e) => Err(e)
    case Ok(h) =>
      if h.Control() then Ok(Message(h, []))
      else if HEADER_LEN + h.payloadSize > |b| then Err(PayloadOverrun)
      else Ok(Message(h, b[HEADER_LEN..HEADER_LEN + h.payloadSize]))
  }

  predicate ValidHeader(h: Header) {
    && (h.version == 1 || h.version == 2)
    && h.flags / 2 % 8 == 0
    && (h.Control() || h.command <= LAST_COMMAND)
  }

  predicate ValidMessage(m: Message) {
    ValidHeader(m.h) && if m.h.Control() then m.payload == [] else |m.payload| == m.h.payloadSize
  }

  function EncodeHeader(h: Header): (r: seq<byte>)
    ensures |r| == HEADER_LEN
  {
    [MAGIC, h.version, h.flags, h.command] + PutOrder32(h.BigEndian(), h.payloadSize)
  }

  function Encode(m: Message): seq<byte> {
    EncodeHeader(m.h) + m.payload
  }

  function MessageCodec(): Codec<Message, Error> {
    Codec(b => ParseOne(b), Encode, m => ValidMessage(m))
  }

  lemma OrderWithin(big: bool, b: seq<byte>, v: u32)
    requires |b| >= HEADER_LEN
    ensures Order32(big, b, 4) == v <==> b[4..8] == PutOrder32(big, v)
  {
    var s := b[4..8];
    if big {
      U32Within(b, 4, v);
    } else {
      var t := Reverse4(s);
      U32Within(t, 0, v);
      assert t[0..4] == t && Reverse4(t) == s && Reverse4(Reverse4(Put32(v))) == Put32(v);
    }
  }

  lemma HeaderReads(b: seq<byte>, h: Header)
    ensures ParseHeader(b) == Ok(h) <==> ValidHeader(h) && EncodeHeader(h) <= b
  {
    if |b| >= HEADER_LEN {
      OrderWithin(h.BigEndian(), b, h.payloadSize);
      var e := EncodeHeader(h);
      assert e[4..8] == PutOrder32(h.BigEndian(), h.payloadSize);
      assert b[..8] == [b[0], b[1], b[2], b[3]] + b[4..8];
      if e <= b {
        assert b[4..8] == b[..8][4..] == e[4..];
        assert e[0] == b[0] && e[1] == b[1] && e[2] == b[2] && e[3] == b[3];
      }
    }
  }

  lemma MessageReads(b: seq<byte>, m: Message)
    ensures ParseOne(b) == Ok(m) <==> ValidMessage(m) && Encode(m) <= b
  {
    HeaderReads(b, m.h);
    ConcatPrefix(EncodeHeader(m.h), m.payload, b);
  }

  /** The PVA framing satisfies the stream laws. */
  lemma CodecSound()
    ensures Sound(MessageCodec())
  {
    var c := MessageCodec();
    forall b, m ensures Reads(c, b, m) {
      MessageReads(b, m);
    }
  }

  ghost function ParseSpec(b: seq<byte>): Parsed<Message, Error> {
    CodecSound();
    Stream.Parse(MessageCodec(), b, Truncated)
  }

  lemma EncodedSize(m: Message)
    ensures |Encode(m)| == HEADER_LEN + |m.payload|
  {
  }

  method Parse(b: seq<byte>) returns (out: seq<Message>, err: Option<Error>)
    ensures Parsed(out, err) == ParseSpec(b)
  {
    CodecSound();
    ghost var c := MessageCodec();
    out := [];
    var off := 0;
    LoopStarts(c, b);
    while off < |b|
      invariant 0 <= off && ParsedTo(c, b, off, out)
    {
      LoopStops(c, b, off, out, Truncated);
      match ParseOne(b[off..])
      case Err(e) =>
        return out, Some(e);
      case Ok(m) =>
        MessageReads(b[off..], m);
        EncodedSize(m);
        var end := off + HEADER_LEN + |m.payload|;
        LoopAdvances(c, b, off, out, m, end);
        out := out + [m];
        off := end;
    }
    LoopStops(c, b, off, out, Truncated);
    if |out| == 0 {
      return [], Some(Truncated);
    }
    err := None;
  }

  predicate Probable(b: seq<byte>) {
    ParseHeader(b).Ok?
  }
}
