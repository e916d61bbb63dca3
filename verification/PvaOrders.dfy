/**
  PVAccess payloads in either byte order (internal/epics/pva/pva.go): wirepup writes big-endian, but a
  server may write little-endian, and says so in the flags of its header.
 */
module PvaOrders {
  import opened Bytes
  import opened NetIp
  import opened Wrappers
  import opened Stream
  import opened Pva
  import opened PvaReader
  import opened PvaMessages
  import opened PvaBuild

  // ---------------------------------------------------------------- the fields in either order

  function Put16In(big: bool, v: u16): (r: seq<byte>)
    ensures |r| == 2
  {
    if big then [v / 0x100, v % 0x100] else [v % 0x100, v / 0x100]
  }

  /** A size below 254 is one byte, whatever the order. */
  function SizeIn(big: bool, n: nat): seq<byte>
    requires n < 0x8000_0000
  {
    if n < 254 then [n] else [254] + PutOrder32(big, n)
  }

  function StrIn(big: bool, s: seq<byte>): seq<byte>
    requires |s| < 0x8000_0000
  {
    SizeIn(big, |s|) + s
  }

  function IdsIn(big: bool, ids: seq<i32>): (r: seq<byte>)
    ensures |r| == 4 * |ids|
  {
    if ids == [] then [] else PutOrder32(big, Unsigned32(ids[0])) + IdsIn(big, ids[1..])
  }

  function ResponseIn(big: bool, guid: seq<byte>, id: i32, server: Addr, port: u16, protocol: seq<byte>, flag: byte, ids: seq<i32>): seq<byte>
    requires |ids| < 0x1_0000 && |protocol| < 0x8000_0000
  {
    guid + PutOrder32(big, Unsigned32(id)) + AddrBytes(server) + Put16In(big, port) + StrIn(big, protocol) + [flag]
    + Put16In(big, |ids|) + IdsIn(big, ids)
  }

  function BeaconIn(big: bool, guid: seq<byte>, flags: byte, beaconSeq: byte, change: u16, server: Addr, port: u16, protocol: seq<byte>,
                    status: byte): seq<byte>
    requires |protocol| < 0x8000_0000
  {
    guid + [flags] + [beaconSeq] + Put16In(big, change) + AddrBytes(server) + Put16In(big, port) + StrIn(big, protocol) + [status]
  }

  // ---------------------------------------------------------------- reading them back

  lemma Put32InReads(big: bool, v: u32)
    ensures Order32(big, PutOrder32(big, v), 0) == v
  {
    Put32Reads(v);
    var r := PutOrder32(big, v);
    assert r[0..4] == r;
    assert Reverse4(Reverse4(Put32(v))) == Put32(v);
  }

  lemma I32In(big: bool, b: seq<byte>, off: nat, v: i32)
    requires Stands(b, off, PutOrder32(big, Unsigned32(v)))
    ensures ReadI32(b, big, Cursor(off, false)) == (v, Cursor(off + 4, false))
  {
    Put32InReads(big, Unsigned32(v));
  }

  lemma U16In(big: bool, b: seq<byte>, off: nat, v: u16)
    requires Stands(b, off, Put16In(big, v))
    ensures ReadU16(b, big, Cursor(off, false)) == (v, Cursor(off + 2, false))
  {
  }

  lemma SizeStandsIn(big: bool, b: seq<byte>, off: nat, n: nat)
    requires n < 0x8000_0000 && Stands(b, off, SizeIn(big, n))
    ensures ReadSize(b, big, Cursor(off, false)) == (n, Cursor(off + |SizeIn(big, n)|, false))
  {
    if n < 254 {
      ByteStands(b, off, n);
    } else {
      PartsStand(b, off, [254], PutOrder32(big, n));
      ByteStands(b, off, 254);
      I32In(big, b, off + 1, n);
    }
  }

  lemma StrStandsIn(big: bool, b: seq<byte>, off: nat, s: seq<byte>)
    requires |s| < 0x8000_0000 && Stands(b, off, StrIn(big, s))
    ensures ReadStr(b, big, Cursor(off, false)) == (s, Cursor(off + |StrIn(big, s)|, false))
  {
    PartsStand(b, off, SizeIn(big, |s|), s);
    SizeStandsIn(big, b, off, |s|);
  }

  lemma {:induction false} IdsStandIn(big: bool, b: seq<byte>, off: nat, ids: seq<i32>)
    requires Stands(b, off, IdsIn(big, ids))
    ensures ReadIds(b, big, Cursor(off, false), |ids|) == (ids, Cursor(off + 4 * |ids|, false))
    decreases |ids|
  {
    if ids == [] {
    } else {
      PartsStand(b, off, PutOrder32(big, Unsigned32(ids[0])), IdsIn(big, ids[1..]));
      I32In(big, b, off, ids[0]);
      IdsStandIn(big, b, off + 4, ids[1..]);
      assert [ids[0]] + ids[1..] == ids;
    }
  }

  lemma ResponsePiecesIn(big: bool, guid: seq<byte>, id: i32, server: Addr, port: u16, protocol: seq<byte>, flag: byte, ids: seq<i32>)
    requires |guid| == GUID_LEN && |ids| < 0x1_0000 && |protocol| < 0x8000_0000
    ensures var b := ResponseIn(big, guid, id, server, port, protocol, flag, ids);
            var n := 34 + |StrIn(big, protocol)|;
            && Stands(b, 0, guid) && Stands(b, 12, PutOrder32(big, Unsigned32(id))) && Stands(b, 16, AddrBytes(server))
            && Stands(b, 32, Put16In(big, port)) && Stands(b, 34, StrIn(big, protocol)) && Stands(b, n, [flag])
            && Stands(b, n + 1, Put16In(big, |ids|)) && Stands(b, n + 3, IdsIn(big, ids))
  {
    var b := ResponseIn(big, guid, id, server, port, protocol, flag, ids);
    var p1 := guid + PutOrder32(big, Unsigned32(id));
    var p2 := p1 + AddrBytes(server);
    var p3 := p2 + Put16In(big, port);
    var p4 := p3 + StrIn(big, protocol);
    var p5 := p4 + [flag];
    var p6 := p5 + Put16In(big, |ids|);
    LastPiece(p6, IdsIn(big, ids), b);
    LastPiece(p5, Put16In(big, |ids|), b);
    LastPiece(p4, [flag], b);
    LastPiece(p3, StrIn(big, protocol), b);
    LastPiece(p2, Put16In(big, port), b);
    LastPiece(p1, AddrBytes(server), b);
    LastPiece(guid, PutOrder32(big, Unsigned32(id)), b);
    assert b[0..12] == b[..12] == guid;
  }

  lemma ResponseReadsIn(big: bool, guid: seq<byte>, id: i32, server: Addr, port: u16, protocol: seq<byte>, flag: byte, ids: seq<i32>, src: Addr)
    requires |guid| == GUID_LEN && |ids| < 0x1_0000 && |protocol| < 0x8000_0000
    ensures ResponseOf(ResponseIn(big, guid, id, server, port, protocol, flag, ids), big, src)
         == Decoded(ResponseBody(guid, id, Announced(server, src), port, protocol, flag != 0, ids), false)
  {
    var b := ResponseIn(big, guid, id, server, port, protocol, flag, ids);
    var n := 34 + |StrIn(big, protocol)|;
    ResponsePiecesIn(big, guid, id, server, port, protocol, flag, ids);
    assert Take(b, START, GUID_LEN) == (guid, Cursor(12, false));
    I32In(big, b, 12, id);
    AddrStands(b, 16, server);
    U16In(big, b, 32, port);
    StrStandsIn(big, b, 34, protocol);
    ByteStands(b, n, flag);
    U16In(big, b, n + 1, |ids|);
    IdsStandIn(big, b, n + 3, ids);
  }

  lemma BeaconPiecesIn(big: bool, guid: seq<byte>, flags: byte, beaconSeq: byte, change: u16, server: Addr, port: u16, protocol: seq<byte>,
                       status: byte)
    requires |guid| == GUID_LEN && |protocol| < 0x8000_0000
    ensures var b := BeaconIn(big, guid, flags, beaconSeq, change, server, port, protocol, status);
            && Stands(b, 0, guid) && Stands(b, 12, [flags]) && Stands(b, 13, [beaconSeq]) && Stands(b, 14, Put16In(big, change))
            && Stands(b, 16, AddrBytes(server)) && Stands(b, 32, Put16In(big, port)) && Stands(b, 34, StrIn(big, protocol))
            && Stands(b, 34 + |StrIn(big, protocol)|, [status])
  {
    var b := BeaconIn(big, guid, flags, beaconSeq, change, server, port, protocol, status);
    var p1 := guid + [flags];
    var p2 := p1 + [beaconSeq];
    var p3 := p2 + Put16In(big, change);
    var p4 := p3 + AddrBytes(server);
    var p5 := p4 + Put16In(big, port);
    var p6 := p5 + StrIn(big, protocol);
    LastPiece(p6, [status], b);
    LastPiece(p5, StrIn(big, protocol), b);
    LastPiece(p4, Put16In(big, port), b);
    LastPiece(p3, AddrBytes(server), b);
    LastPiece(p2, Put16In(big, change), b);
    LastPiece(p1, [beaconSeq], b);
    LastPiece(guid, [flags], b);
    assert b[0..12] == b[..12] == guid;
  }

  lemma BeaconReadsIn(big: bool, guid: seq<byte>, flags: byte, beaconSeq: byte, change: u16, server: Addr, port: u16, protocol: seq<byte>,
                      status: byte, src: Addr)
    requires |guid| == GUID_LEN && |protocol| < 0x8000_0000
    ensures BeaconOf(BeaconIn(big, guid, flags, beaconSeq, change, server, port, protocol, status), big, src)
         == Decoded(BeaconBody(guid, beaconSeq, change, Announced(server, src), port, protocol, status != NULL_FIELD), false)
  {
    var b := BeaconIn(big, guid, flags, beaconSeq, change, server, port, protocol, status);
    BeaconPiecesIn(big, guid, flags, beaconSeq, change, server, port, protocol, status);
    ByteStands(b, 12, flags);
    ByteStands(b, 13, beaconSeq);
    U16In(big, b, 14, change);
    AddrStands(b, 16, server);
    U16In(big, b, 32, port);
    StrStandsIn(big, b, 34, protocol);
    ByteStands(b, 34 + |StrIn(big, protocol)|, status);
    assert Take(b, START, GUID_LEN) == (guid, Cursor(12, false));
  }

  // ---------------------------------------------------------------- whole messages

  lemma OneMessageParses(m: Message)
    requires ValidMessage(m)
    ensures ParseSpec(Encode(m)) == Parsed([m], None)
  {
    CodecSound();
    EncodeSingle(MessageCodec(), m);
    ParsesExactly(MessageCodec(), Encode(m), Truncated, [m]);
  }

  /**
    A search response of a server of either byte order, with any protocol name, parses and decodes to
    what the server wrote, in the order its header flags announce.
   */
  lemma ResponseEitherOrder(h: Header, guid: seq<byte>, id: i32, server: Addr, port: u16, protocol: seq<byte>, flag: byte, ids: seq<i32>, src: Addr)
    requires |guid| == GUID_LEN && |ids| < 0x1_0000 && |protocol| < 0x8000_0000 && h.command == CMD_SEARCH_RESPONSE && !h.Control()
    requires ValidMessage(Message(h, ResponseIn(h.BigEndian(), guid, id, server, port, protocol, flag, ids)))
    ensures var m := Message(h, ResponseIn(h.BigEndian(), guid, id, server, port, protocol, flag, ids));
            && ParseSpec(Encode(m)) == Parsed([m], None)
            && DecodedOf(m, src) == Decoded(ResponseBody(guid, id, Announced(server, src), port, protocol, flag != 0, ids), false)
  {
    OneMessageParses(Message(h, ResponseIn(h.BigEndian(), guid, id, server, port, protocol, flag, ids)));
    ResponseReadsIn(h.BigEndian(), guid, id, server, port, protocol, flag, ids, src);
  }

  /** The same for a beacon. */
  lemma BeaconEitherOrder(h: Header, guid: seq<byte>, flags: byte, beaconSeq: byte, change: u16, server: Addr, port: u16, protocol: seq<byte>,
                          status: byte, src: Addr)
    requires |guid| == GUID_LEN && |protocol| < 0x8000_0000 && h.command == CMD_BEACON && !h.Control()
    requires ValidMessage(Message(h, BeaconIn(h.BigEndian(), guid, flags, beaconSeq, change, server, port, protocol, status)))
    ensures var m := Message(h, BeaconIn(h.BigEndian(), guid, flags, beaconSeq, change, server, port, protocol, status));
            && ParseSpec(Encode(m)) == Parsed([m], None)
            && DecodedOf(m, src)
               == Decoded(BeaconBody(guid, beaconSeq, change, Announced(server, src), port, protocol, status != NULL_FIELD), false)
  {
    OneMessageParses(Message(h, BeaconIn(h.BigEndian(), guid, flags, beaconSeq, change, server, port, protocol, status)));
    BeaconReadsIn(h.BigEndian(), guid, flags, beaconSeq, change, server, port, protocol, status, src);
  }
}
