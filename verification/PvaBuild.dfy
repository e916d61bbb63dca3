/** The PVA datagram builders and the round trips through parsing and interpretation. */
module PvaBuild {
  import opened Bytes
  import opened NetIp
  import opened Wrappers
  import opened Stream
  import opened Pva
  import opened PvaReader
  import opened PvaMessages

  // ---------------------------------------------------------------- what the writer appends

  const TCP_NAME: seq<byte> := [0x74, 0x63, 0x70]

  function SizeBytes(n: nat): seq<byte> {
    if n < SIZE_LONG then [n] else [SIZE_LONG] + Put32(n % 0x1_0000_0000)
  }

  function StrBytes(s: seq<byte>): seq<byte> {
    SizeBytes(|s|) + s
  }

  function AddrBytes(a: Addr): (r: seq<byte>)
    ensures |r| == ADDR_LEN
  {
    if a.IsValid() then a.As16() else ZERO16
  }

  function IdBytes(ids: seq<i32>): (r: seq<byte>)
    ensures |r| == 4 * |ids|
  {
    if ids == [] then [] else Put32(Unsigned32(ids[0])) + IdBytes(ids[1..])
  }

  function FrameBytes(cmd: byte, fromServer: bool, payload: seq<byte>): seq<byte> {
    [MAGIC, MAX_VERSION, FLAG_BIG_ENDIAN + (if fromServer then FLAG_SERVER else 0), cmd]
    + Put32(|payload| % 0x1_0000_0000) + payload
  }

  function SearchFlags(replyRequired: bool, unicast: bool): byte {
    (if replyRequired then SEARCH_REPLY_REQUIRED else 0) + (if unicast then SEARCH_UNICAST else 0)
  }

  function SearchPayload(id: i32, channel: i32, name: seq<byte>, replyRequired: bool, unicast: bool, port: u16): seq<byte> {
    SearchFields(id, channel, name, SearchFlags(replyRequired, unicast), port)
  }

  function SearchHead(id: i32, flags: byte, port: u16): seq<byte> {
    Put32(Unsigned32(id)) + [flags] + [0, 0, 0] + AddrBytes(Invalid) + Put16(port)
  }

  /** One protocol, tcp, and one channel. */
  function SearchFields(id: i32, channel: i32, name: seq<byte>, flags: byte, port: u16): seq<byte> {
    SearchHead(id, flags, port)
    + SizeBytes(1) + StrBytes(TCP_NAME) + Put16(1) + Put32(Unsigned32(channel)) + StrBytes(name)
  }

  function ResponsePayload(guid: seq<byte>, id: i32, server: Addr, port: u16, found: bool, ids: seq<i32>): seq<byte> {
    ResponseFields(guid, id, server, port, if found then 1 else 0, |ids| % 0x1_0000, ids)
  }

  function ResponseFields(guid: seq<byte>, id: i32, server: Addr, port: u16, flag: byte, count: u16, ids: seq<i32>): seq<byte> {
    guid + Put32(Unsigned32(id)) + AddrBytes(server) + Put16(port) + StrBytes(TCP_NAME) + [flag]
    + Put16(count) + IdBytes(ids)
  }

  function BeaconPayload(guid: seq<byte>, beaconSeq: byte, change: u16, server: Addr, port: u16): seq<byte> {
    guid + [0] + [beaconSeq] + Put16(change) + AddrBytes(server) + Put16(port) + StrBytes(TCP_NAME) + [NULL_FIELD]
  }

  class Writer {
    var b: seq<byte>

    constructor ()
      ensures b == []
    {
      b := [];
    }

    method Byte(v: byte)
      modifies this
      ensures b == old(b) + [v]
    {
      b := b + [v];
    }

    method Append(s: seq<byte>)
      modifies this
      ensures b == old(b) + s
    {
      b := b + s;
    }

    method Size(n: nat)
      modifies this
      ensures b == old(b) + SizeBytes(n)
    {
      if n < SIZE_LONG {
        Byte(n);
        return;
      }
      Byte(SIZE_LONG);
      Append(Put32(n % 0x1_0000_0000));
    }

    method Str(s: seq<byte>)
      modifies this
      ensures b == old(b) + StrBytes(s)
    {
      Size(|s|);
      b := b + s;
    }
  }

  method WriteSearchHead(w: Writer, id: i32, replyRequired: bool, unicast: bool, port: u16)
    requires w.b == []
    modifies w
    ensures w.b == SearchHead(id, SearchFlags(replyRequired, unicast), port)
  {
    w.Append(Put32(Unsigned32(id)));
    var flags: byte := 0;
    if replyRequired {
      flags := flags + SEARCH_REPLY_REQUIRED;
    }
    if unicast {
      flags := flags + SEARCH_UNICAST;
    }
    w.Byte(flags);
    w.Append([0, 0, 0]);
    w.Append(AddrBytes(Invalid));
    w.Append(Put16(port));
  }

  method SearchDatagram(id: i32, channel: i32, name: seq<byte>, replyRequired: bool, unicast: bool, port: u16) returns (r: seq<byte>)
    ensures r == FrameBytes(CMD_SEARCH, false, SearchPayload(id, channel, name, replyRequired, unicast, port))
  {
    var w := new Writer();
    WriteSearchHead(w, id, replyRequired, unicast, port);
    w.Size(1);
    w.Str(TCP_NAME);
    w.Append(Put16(1));
    w.Append(Put32(Unsigned32(channel)));
    w.Str(name);
    r := FrameBytes(CMD_SEARCH, false, w.b);
  }

  method WriteIds(w: Writer, ids: seq<i32>)
    modifies w
    ensures w.b == old(w.b) + IdBytes(ids)
  {
    assert ids[0..] == ids;
    for i := 0 to |ids|
      invariant w.b + IdBytes(ids[i..]) == old(w.b) + IdBytes(ids)
    {
      assert ids[i..][1..] == ids[i + 1..];
      w.Append(Put32(Unsigned32(ids[i])));
    }
    assert w.b + [] == w.b;
  }

  method SearchResponseDatagram(guid: seq<byte>, id: i32, server: Addr, port: u16, found: bool, ids: seq<i32>) returns (r: seq<byte>)
    requires |guid| == GUID_LEN
    ensures r == FrameBytes(CMD_SEARCH_RESPONSE, true, ResponsePayload(guid, id, server, port, found, ids))
  {
    var w := new Writer();
    w.Append(guid);
    w.Append(Put32(Unsigned32(id)));
    w.Append(AddrBytes(server));
    w.Append(Put16(port));
    w.Str(TCP_NAME);
    w.Byte(if found then 1 else 0);
    w.Append(Put16(|ids| % 0x1_0000));
    assert [] + guid == guid;
    WriteIds(w, ids);
    r := FrameBytes(CMD_SEARCH_RESPONSE, true, w.b);
  }

  method BeaconDatagram(guid: seq<byte>, beaconSeq: byte, change: u16, server: Addr, port: u16) returns (r: seq<byte>)
    requires |guid| == GUID_LEN
    ensures r == FrameBytes(CMD_BEACON, true, BeaconPayload(guid, beaconSeq, change, server, port))
  {
    var w := new Writer();
    w.Append(guid);
    w.Byte(0);
    w.Byte(beaconSeq);
    w.Append(Put16(change));
    w.Append(AddrBytes(server));
    w.Append(Put16(port));
    w.Str(TCP_NAME);
    w.Byte(NULL_FIELD);
    r := FrameBytes(CMD_BEACON, true, w.b);
  }

  // ---------------------------------------------------------------- reading what was written

  /** x stands at offset off of b. */
  predicate Stands(b: seq<byte>, off: nat, x: seq<byte>) {
    off + |x| <= |b| && b[off..off + |x|] == x
  }

  /** The last piece of a written prefix stands after the rest of the prefix. */
  lemma LastPiece(p: seq<byte>, x: seq<byte>, b: seq<byte>)
    requires p + x <= b
    ensures p <= b && Stands(b, |p|, x)
  {
    ConcatPrefix(p, x, b);
  }

  lemma I32Stands(b: seq<byte>, off: nat, v: i32)
    requires Stands(b, off, Put32(Unsigned32(v)))
    ensures ReadI32(b, true, Cursor(off, false)) == (v, Cursor(off + 4, false))
  {
    Put32Reads(Unsigned32(v));
  }

  lemma U16Stands(b: seq<byte>, off: nat, v: u16)
    requires Stands(b, off, Put16(v))
    ensures ReadU16(b, true, Cursor(off, false)) == (v, Cursor(off + 2, false))
  {
    Put16Reads(v);
  }

  lemma ByteStands(b: seq<byte>, off: nat, v: byte)
    requires Stands(b, off, [v])
    ensures ReadByte(b, Cursor(off, false)) == (v, Cursor(off + 1, false))
  {
  }

  /** An absent address is written as zeros, which read back as the unspecified address. */
  lemma AddrStands(b: seq<byte>, off: nat, a: Addr)
    requires Stands(b, off, AddrBytes(a))
    ensures ReadAddr(b, Cursor(off, false)) == (if a.IsValid() then a.Unmap() else V6(ZERO16), Cursor(off + 16, false))
  {
    if a.IsValid() {
      As16Unmaps(a);
    } else {
      assert ZERO16[10] != MAPPED_PREFIX[10];
    }
  }

  lemma SizeStands(b: seq<byte>, off: nat, n: nat)
    requires n < 0x8000_0000 && Stands(b, off, SizeBytes(n))
    ensures ReadSize(b, true, Cursor(off, false)) == (n, Cursor(off + |SizeBytes(n)|, false))
  {
    if n < SIZE_LONG {
      ByteStands(b, off, n);
    } else {
      var s := b[off..off + 5];
      assert s[0] == b[off] && s[1..] == b[off + 1..off + 5];
      ByteStands(b, off, SIZE_LONG);
      I32Stands(b, off + 1, n);
    }
  }

  /** Where two pieces stand together, each stands at its own place. */
  lemma PartsStand(b: seq<byte>, off: nat, x: seq<byte>, y: seq<byte>)
    requires Stands(b, off, x + y)
    ensures Stands(b, off, x) && Stands(b, off + |x|, y)
  {
    var z := b[off..off + |x + y|];
    assert z[..|x|] == x && z[|x|..] == y;
    SliceOfSlice(b, off, off + |x + y|, 0, |x|);
    SliceOfSlice(b, off, off + |x + y|, |x|, |x + y|);
  }

  lemma StrStands(b: seq<byte>, off: nat, s: seq<byte>)
    requires |s| < 0x8000_0000 && Stands(b, off, StrBytes(s))
    ensures ReadStr(b, true, Cursor(off, false)) == (s, Cursor(off + |StrBytes(s)|, false))
  {
    PartsStand(b, off, SizeBytes(|s|), s);
    SizeStands(b, off, |s|);
  }

  lemma {:induction false} IdsStand(b: seq<byte>, off: nat, ids: seq<i32>)
    requires Stands(b, off, IdBytes(ids))
    ensures ReadIds(b, true, Cursor(off, false), |ids|) == (ids, Cursor(off + 4 * |ids|, false))
    decreases |ids|
  {
    if ids == [] {
    } else {
      var x := b[off..off + 4 * |ids|];
      assert x[..4] == Put32(Unsigned32(ids[0])) && x[4..] == IdBytes(ids[1..]);
      assert b[off..off + 4] == x[..4] && b[off + 4..off + 4 + 4 * |ids[1..]|] == x[4..];
      I32Stands(b, off, ids[0]);
      IdsStand(b, off + 4, ids[1..]);
      assert [ids[0]] + ids[1..] == ids;
    }
  }

  function FrameMessage(cmd: byte, fromServer: bool, payload: seq<byte>): Message
    requires |payload| < 0x1_0000_0000
  {
    Message(Header(MAX_VERSION, FLAG_BIG_ENDIAN + (if fromServer then FLAG_SERVER else 0), cmd, |payload|), payload)
  }

  /** A built frame parses to one message with the payload that was written. */
  lemma FrameParses(cmd: byte, fromServer: bool, payload: seq<byte>)
    requires cmd <= LAST_COMMAND && |payload| < 0x1_0000_0000
    ensures ParseSpec(FrameBytes(cmd, fromServer, payload)) == Parsed([FrameMessage(cmd, fromServer, payload)], None)
  {
    CodecSound();
    var c, m := MessageCodec(), FrameMessage(cmd, fromServer, payload);
    assert c.valid(m);
    EncodeSingle(c, m);
    assert c.encode(m) == FrameBytes(cmd, fromServer, payload);
    ParsesExactly(c, FrameBytes(cmd, fromServer, payload), Truncated, [m]);
  }

  /** A built frame is an application message in big-endian order. */
  lemma FrameHeader(cmd: byte, fromServer: bool, payload: seq<byte>)
    requires |payload| < 0x1_0000_0000
    ensures var m := FrameMessage(cmd, fromServer, payload);
            !m.h.Control() && m.h.BigEndian() && m.h.command == cmd && m.payload == payload
  {
  }

  /** The discovery messages are interpreted by their command. */
  lemma SearchDispatches(m: Message, src: Addr)
    requires !m.h.Control() && m.h.BigEndian() && m.h.command == CMD_SEARCH
    ensures DecodedOf(m, src) == SearchOf(m.payload, true)
  {
  }

  lemma ResponseDispatches(m: Message, src: Addr)
    requires !m.h.Control() && m.h.BigEndian() && m.h.command == CMD_SEARCH_RESPONSE
    ensures DecodedOf(m, src) == ResponseOf(m.payload, true, src)
  {
  }

  lemma BeaconDispatches(m: Message, src: Addr)
    requires !m.h.Control() && m.h.BigEndian() && m.h.command == CMD_BEACON
    ensures DecodedOf(m, src) == BeaconOf(m.payload, true, src)
  {
  }

  // ---------------------------------------------------------------- round trips

  lemma FlagBits(replyRequired: bool, unicast: bool)
    ensures SearchFlags(replyRequired, unicast) % 2 == (if replyRequired then 1 else 0)
    ensures SearchFlags(replyRequired, unicast) / 0x80 == (if unicast then 1 else 0)
  {
  }

  /** Where the fields of a search payload stand. */
  lemma SearchPieces(id: i32, channel: i32, name: seq<byte>, flags: byte, port: u16)
    ensures var b := SearchFields(id, channel, name, flags, port);
            && Stands(b, 0, Put32(Unsigned32(id))) && Stands(b, 4, [flags]) && Stands(b, 8, AddrBytes(Invalid))
            && Stands(b, 24, Put16(port)) && Stands(b, 26, SizeBytes(1)) && Stands(b, 27, StrBytes(TCP_NAME))
            && Stands(b, 31, Put16(1)) && Stands(b, 33, Put32(Unsigned32(channel))) && Stands(b, 37, StrBytes(name))
  {
    var b := SearchFields(id, channel, name, flags, port);
    var p5 := SearchHead(id, flags, port);
    var p6 := p5 + SizeBytes(1);
    var p7 := p6 + StrBytes(TCP_NAME);
    var p8 := p7 + Put16(1);
    var p9 := p8 + Put32(Unsigned32(channel));
    LastPiece(p9, StrBytes(name), b);
    LastPiece(p8, Put32(Unsigned32(channel)), b);
    LastPiece(p7, Put16(1), b);
    LastPiece(p6, StrBytes(TCP_NAME), b);
    LastPiece(p5, SizeBytes(1), b);
    var p1 := Put32(Unsigned32(id));
    var p2 := p1 + [flags];
    var p3 := p2 + [0, 0, 0];
    var p4 := p3 + AddrBytes(Invalid);
    LastPiece(p4, Put16(port), b);
    LastPiece(p3, AddrBytes(Invalid), b);
    LastPiece(p2, [0, 0, 0], b);
    LastPiece(p1, [flags], b);
    assert b[0..4] == b[..4] == p1;
  }

  /**
    The payload of a search reads back field by field; a name above 500 bytes makes the decoded
    message malformed and loses its channel.
   */
  lemma SearchPayloadReads(id: i32, channel: i32, name: seq<byte>, replyRequired: bool, unicast: bool, port: u16)
    requires |name| < 0x8000_0000
    ensures SearchOf(SearchPayload(id, channel, name, replyRequired, unicast, port), true)
         == var fits := |name| <= MAX_CHANNEL_NAME;
            Decoded(SearchBody(id, replyRequired, unicast, V6(ZERO16), port, [TCP_NAME],
                               if fits then [Channel(channel, name)] else []), !fits)
  {
    var b := SearchPayload(id, channel, name, replyRequired, unicast, port);
    var flags := SearchFlags(replyRequired, unicast);
    FlagBits(replyRequired, unicast);
    SearchPieces(id, channel, name, flags, port);
    I32Stands(b, 0, id);
    ByteStands(b, 4, flags);
    AddrStands(b, 8, Invalid);
    U16Stands(b, 24, port);
    SizeStands(b, 26, 1);
    OneStr(b, 27, TCP_NAME);
    U16Stands(b, 31, 1);
    OneChannel(b, 33, channel, name);
  }

  lemma OneStr(b: seq<byte>, off: nat, s: seq<byte>)
    requires |s| < 0x8000_0000 && Stands(b, off, StrBytes(s))
    ensures ReadStrs(b, true, Cursor(off, false), 1) == ([s], Cursor(off + |StrBytes(s)|, false))
  {
    StrStands(b, off, s);
    JoinedLast([s], Cursor(off + |StrBytes(s)|, false));
  }

  lemma OneChannel(b: seq<byte>, off: nat, channel: i32, name: seq<byte>)
    requires |name| < 0x8000_0000
    requires Stands(b, off, Put32(Unsigned32(channel))) && Stands(b, off + 4, StrBytes(name))
    ensures var (cs, c) := ReadChannels(b, true, Cursor(off, false), 1, true);
            if |name| <= MAX_CHANNEL_NAME then cs == [Channel(channel, name)] && !c.failed else cs == [] && c.failed
  {
    I32Stands(b, off, channel);
    StrStands(b, off + 4, name);
    JoinedLast([Channel(channel, name)], Cursor(off + 4 + |StrBytes(name)|, false));
  }

  /**
    Search round trip: sequence, flags and response port of a built search always come back; the
    channel comes back, in a message not marked malformed, exactly when its name has at most 500
    bytes, on either side of the 254-byte size form.
   */
  lemma SearchRoundTrip(id: i32, channel: i32, name: seq<byte>, replyRequired: bool, unicast: bool, port: u16, src: Addr)
    requires |name| < 0x8000_0000
    ensures var m := FrameMessage(CMD_SEARCH, false, SearchPayload(id, channel, name, replyRequired, unicast, port));
            && ParseSpec(FrameBytes(CMD_SEARCH, false, m.payload)) == Parsed([m], None)
            && DecodedOf(m, src)
               == var fits := |name| <= MAX_CHANNEL_NAME;
                  Decoded(SearchBody(id, replyRequired, unicast, V6(ZERO16), port, [TCP_NAME],
                                     if fits then [Channel(channel, name)] else []), !fits)
  {
    var payload := SearchPayload(id, channel, name, replyRequired, unicast, port);
    SearchPayloadReads(id, channel, name, replyRequired, unicast, port);
    FrameParses(CMD_SEARCH, false, payload);
    FrameHeader(CMD_SEARCH, false, payload);
    SearchDispatches(FrameMessage(CMD_SEARCH, false, payload), src);
  }

  /** The server address a response or beacon resolves to: the one written, or the sender. */
  function Announced(server: Addr, src: Addr): Addr {
    if server.IsValid() && !server.Unmap().IsUnspecified() then server.Unmap() else src
  }

  /** Where the fields of a response payload stand. */
  lemma ResponsePieces(guid: seq<byte>, id: i32, server: Addr, port: u16, flag: byte, count: u16, ids: seq<i32>)
    requires |guid| == GUID_LEN
    ensures var b := ResponseFields(guid, id, server, port, flag, count, ids);
            && Stands(b, 0, guid) && Stands(b, 12, Put32(Unsigned32(id))) && Stands(b, 16, AddrBytes(server))
            && Stands(b, 32, Put16(port)) && Stands(b, 34, StrBytes(TCP_NAME)) && Stands(b, 38, [flag])
            && Stands(b, 39, Put16(count)) && Stands(b, 41, IdBytes(ids))
  {
    var b := ResponseFields(guid, id, server, port, flag, count, ids);
    var p1 := guid + Put32(Unsigned32(id));
    var p2 := p1 + AddrBytes(server);
    var p3 := p2 + Put16(port);
    var p4 := p3 + StrBytes(TCP_NAME);
    var p5 := p4 + [flag];
    var p6 := p5 + Put16(count);
    LastPiece(p6, IdBytes(ids), b);
    LastPiece(p5, Put16(count), b);
    LastPiece(p4, [flag], b);
    LastPiece(p3, StrBytes(TCP_NAME), b);
    LastPiece(p2, Put16(port), b);
    LastPiece(p1, AddrBytes(server), b);
    LastPiece(guid, Put32(Unsigned32(id)), b);
    assert b[0..12] == b[..12] == guid;
  }

  /** The payload of a response reads back field by field. */
  lemma ResponsePayloadReads(guid: seq<byte>, id: i32, server: Addr, port: u16, found: bool, ids: seq<i32>, src: Addr)
    requires |guid| == GUID_LEN && |ids| < 0x1_0000
    ensures ResponseOf(ResponsePayload(guid, id, server, port, found, ids), true, src)
         == Decoded(ResponseBody(guid, id, Announced(server, src), port, TCP_NAME, found, ids), false)
  {
    var flag: byte := if found then 1 else 0;
    ResponsePieces(guid, id, server, port, flag, |ids|, ids);
    ResponseReadsAt(ResponsePayload(guid, id, server, port, found, ids), guid, id, server, port, flag, ids, src);
    assert (flag != 0) == found;
  }

  lemma ResponseReadsAt(b: seq<byte>, guid: seq<byte>, id: i32, server: Addr, port: u16, flag: byte, ids: seq<i32>, src: Addr)
    requires |guid| == GUID_LEN && |ids| < 0x1_0000
    requires Stands(b, 0, guid) && Stands(b, 12, Put32(Unsigned32(id))) && Stands(b, 16, AddrBytes(server))
    requires Stands(b, 32, Put16(port)) && Stands(b, 34, StrBytes(TCP_NAME)) && Stands(b, 38, [flag])
    requires Stands(b, 39, Put16(|ids|)) && Stands(b, 41, IdBytes(ids))
    ensures ResponseOf(b, true, src)
         == Decoded(ResponseBody(guid, id, Announced(server, src), port, TCP_NAME, flag != 0, ids), false)
  {
    assert Take(b, START, GUID_LEN) == (guid, Cursor(12, false));
    I32Stands(b, 12, id);
    AddrStands(b, 16, server);
    U16Stands(b, 32, port);
    StrStands(b, 34, TCP_NAME);
    ByteStands(b, 38, flag);
    U16Stands(b, 39, |ids|);
    IdsStand(b, 41, ids);
  }

  /**
    Response round trip: with at most 65535 ids, a built response gives back its GUID, ids, port
    and server address, an absent or all-zero address standing for the sender.
   */
  lemma ResponseRoundTrip(guid: seq<byte>, id: i32, server: Addr, port: u16, found: bool, ids: seq<i32>, src: Addr)
    requires |guid| == GUID_LEN && |ids| <= 65535
    ensures var m := FrameMessage(CMD_SEARCH_RESPONSE, true, ResponsePayload(guid, id, server, port, found, ids));
            && ParseSpec(FrameBytes(CMD_SEARCH_RESPONSE, true, m.payload)) == Parsed([m], None)
            && DecodedOf(m, src) == Decoded(ResponseBody(guid, id, Announced(server, src), port, TCP_NAME, found, ids), false)
  {
    var payload := ResponsePayload(guid, id, server, port, found, ids);
    ResponsePayloadReads(guid, id, server, port, found, ids, src);
    FrameParses(CMD_SEARCH_RESPONSE, true, payload);
    FrameHeader(CMD_SEARCH_RESPONSE, true, payload);
    ResponseDispatches(FrameMessage(CMD_SEARCH_RESPONSE, true, payload), src);
  }

  /** Beyond 65535 ids the 16-bit count wraps, and the ids never come back. */
  lemma ManyIdsLost(guid: seq<byte>, id: i32, server: Addr, port: u16, found: bool, ids: seq<i32>, src: Addr)
    requires |guid| == GUID_LEN && 65535 < |ids|
    ensures ResponseOf(ResponsePayload(guid, id, server, port, found, ids), true, src).body.instanceIds != ids
  {
    CountBounds(ResponsePayload(guid, id, server, port, found, ids), src);
  }

  /** A 16-bit count never decodes more than 65535 ids. */
  lemma CountBounds(b: seq<byte>, src: Addr)
    ensures |ResponseOf(b, true, src).body.instanceIds| <= 65535
  {
    var c5 := ReadStr(b, true, ReadU16(b, true, ReadAddr(b, ReadI32(b, true, Take(b, START, GUID_LEN).1).1).1).1).1;
    var (count, c7) := ReadU16(b, true, ReadByte(b, c5).1);
    IdsAtMost(b, c7, count);
  }

  lemma {:induction false} IdsAtMost(b: seq<byte>, c: Cursor, n: nat)
    ensures |ReadIds(b, true, c, n).0| <= n
    decreases n
  {
    if n > 0 && !c.failed {
      IdsAtMost(b, ReadI32(b, true, c).1, n - 1);
    }
  }

  /** Where the fields of a beacon payload stand. */
  lemma BeaconPieces(guid: seq<byte>, beaconSeq: byte, change: u16, server: Addr, port: u16)
    requires |guid| == GUID_LEN
    ensures var b := BeaconPayload(guid, beaconSeq, change, server, port);
            && Stands(b, 0, guid) && Stands(b, 12, [0]) && Stands(b, 13, [beaconSeq]) && Stands(b, 14, Put16(change))
            && Stands(b, 16, AddrBytes(server)) && Stands(b, 32, Put16(port)) && Stands(b, 34, StrBytes(TCP_NAME))
            && Stands(b, 38, [NULL_FIELD])
  {
    var b := BeaconPayload(guid, beaconSeq, change, server, port);
    var p1 := guid + [0];
    var p2 := p1 + [beaconSeq];
    var p3 := p2 + Put16(change);
    var p4 := p3 + AddrBytes(server);
    var p5 := p4 + Put16(port);
    var p6 := p5 + StrBytes(TCP_NAME);
    LastPiece(p6, [NULL_FIELD], b);
    LastPiece(p5, StrBytes(TCP_NAME), b);
    LastPiece(p4, Put16(port), b);
    LastPiece(p3, AddrBytes(server), b);
    LastPiece(p2, Put16(change), b);
    LastPiece(p1, [beaconSeq], b);
    LastPiece(guid, [0], b);
    assert b[0..12] == b[..12] == guid;
  }

  /** The payload of a beacon reads back field by field. */
  lemma BeaconPayloadReads(guid: seq<byte>, beaconSeq: byte, change: u16, server: Addr, port: u16, src: Addr)
    requires |guid| == GUID_LEN
    ensures BeaconOf(BeaconPayload(guid, beaconSeq, change, server, port), true, src)
         == Decoded(BeaconBody(guid, beaconSeq, change, Announced(server, src), port, TCP_NAME, false), false)
  {
    var b := BeaconPayload(guid, beaconSeq, change, server, port);
    BeaconPieces(guid, beaconSeq, change, server, port);
    ByteStands(b, 12, 0);
    ByteStands(b, 13, beaconSeq);
    U16Stands(b, 14, change);
    AddrStands(b, 16, server);
    U16Stands(b, 32, port);
    StrStands(b, 34, TCP_NAME);
    ByteStands(b, 38, NULL_FIELD);
    assert Take(b, START, GUID_LEN) == (guid, Cursor(12, false));
  }

  /** Beacon round trip: GUID, sequence, change count, port and server come back. */
  lemma BeaconRoundTrip(guid: seq<byte>, beaconSeq: byte, change: u16, server: Addr, port: u16, src: Addr)
    requires |guid| == GUID_LEN
    ensures var m := FrameMessage(CMD_BEACON, true, BeaconPayload(guid, beaconSeq, change, server, port));
            && ParseSpec(FrameBytes(CMD_BEACON, true, m.payload)) == Parsed([m], None)
            && DecodedOf(m, src) == Decoded(BeaconBody(guid, beaconSeq, change, Announced(server, src), port, TCP_NAME, false), false)
  {
    var b := BeaconPayload(guid, beaconSeq, change, server, port);
    BeaconPayloadReads(guid, beaconSeq, change, server, port, src);
    FrameParses(CMD_BEACON, true, b);
    FrameHeader(CMD_BEACON, true, b);
    BeaconDispatches(FrameMessage(CMD_BEACON, true, b), src);
  }
}
