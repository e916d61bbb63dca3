/**
  How a host puts a datagram or segment into a frame: the header layouts of RFC 768, RFC 791, RFC 9293
  and IEEE 802.1Q, and that the parsers of internal/protocol read every field of them back.
 */
module Packets {
  import opened Bytes
  import opened NetIp
  import opened Wrappers
  import opened Wire

  // ---------------------------------------------------------------- UDP

  function UdpHeader(sp: u16, dp: u16, length: u16, sum: u16): (r: seq<byte>)
    ensures |r| == UDP_HEADER_LEN
  {
    Put16(sp) + Put16(dp) + Put16(length) + Put16(sum)
  }

  function UdpBytes(sp: u16, dp: u16, sum: u16, payload: seq<byte>): seq<byte>
    requires UDP_HEADER_LEN + |payload| < 0x1_0000
  {
    UdpHeader(sp, dp, UDP_HEADER_LEN + |payload|, sum) + payload
  }

  lemma UdpHeaderFields(sp: u16, dp: u16, length: u16, sum: u16, rest: seq<byte>)
    ensures var b := UdpHeader(sp, dp, length, sum) + rest;
            U16(b, 0) == sp && U16(b, 2) == dp && U16(b, 4) == length && b[UDP_HEADER_LEN..] == rest
  {
    var b := UdpHeader(sp, dp, length, sum) + rest;
    assert b[0..2] == Put16(sp) && b[2..4] == Put16(dp) && b[4..6] == Put16(length);
    U16Within(b, 0, sp);
    U16Within(b, 2, dp);
    U16Within(b, 4, length);
  }

  /** A datagram reads back, whatever padding follows it. */
  lemma UdpParses(sp: u16, dp: u16, sum: u16, payload: seq<byte>, pad: seq<byte>)
    requires UDP_HEADER_LEN + |payload| < 0x1_0000
    ensures ParseUdp(UdpBytes(sp, dp, sum, payload) + pad) == Ok(Datagram(sp, dp, UDP_HEADER_LEN + |payload|, false, payload))
  {
    var b := UdpBytes(sp, dp, sum, payload) + pad;
    assert b == UdpHeader(sp, dp, UDP_HEADER_LEN + |payload|, sum) + (payload + pad);
    UdpHeaderFields(sp, dp, UDP_HEADER_LEN + |payload|, sum, payload + pad);
    assert b[UDP_HEADER_LEN..UDP_HEADER_LEN + |payload|] == payload;
  }

  // ---------------------------------------------------------------- TCP

  datatype TcpFields = TcpFields(sp: u16, dp: u16, sequence: u32, ack: u32, flags: byte, window: u16, sum: u16, urgent: u16, options: seq<byte>)

  predicate ValidTcp(t: TcpFields) {
    |t.options| % 4 == 0 && |t.options| <= 40
  }

  function TcpFixed(t: TcpFields): (r: seq<byte>)
    requires ValidTcp(t)
    ensures |r| == TCP_MIN_HEADER_LEN
  {
    Put16(t.sp) + Put16(t.dp) + Put32(t.sequence) + Put32(t.ack) + [(5 + |t.options| / 4) * 16, t.flags]
    + Put16(t.window) + Put16(t.sum) + Put16(t.urgent)
  }

  function TcpBytes(t: TcpFields, payload: seq<byte>): seq<byte>
    requires ValidTcp(t)
  {
    TcpFixed(t) + t.options + payload
  }

  lemma TcpFixedFields(t: TcpFields, rest: seq<byte>)
    requires ValidTcp(t)
    ensures var b := TcpFixed(t) + rest;
            && U16(b, 0) == t.sp && U16(b, 2) == t.dp && U32(b, 4) == t.sequence && U32(b, 8) == t.ack
            && b[12] == (5 + |t.options| / 4) * 16 && b[13] == t.flags && U16(b, 14) == t.window
  {
    var b := TcpFixed(t) + rest;
    assert b[0..2] == Put16(t.sp) && b[2..4] == Put16(t.dp) && b[4..8] == Put32(t.sequence) && b[8..12] == Put32(t.ack);
    assert b[14..16] == Put16(t.window);
    U16Within(b, 0, t.sp);
    U16Within(b, 2, t.dp);
    U32Within(b, 4, t.sequence);
    U32Within(b, 8, t.ack);
    U16Within(b, 14, t.window);
  }

  /** A segment reads back; its payload is everything after the options. */
  lemma TcpParses(t: TcpFields, payload: seq<byte>)
    requires ValidTcp(t)
    ensures ParseTcp(TcpBytes(t, payload)) ==
              Ok(Segment(t.sp, t.dp, t.sequence, t.ack, t.flags, t.window, TCP_MIN_HEADER_LEN + |t.options|, payload))
  {
    var b := TcpBytes(t, payload);
    assert b == TcpFixed(t) + (t.options + payload);
    TcpFixedFields(t, t.options + payload);
    assert b[TCP_MIN_HEADER_LEN + |t.options|..] == payload;
  }

  // ---------------------------------------------------------------- IPv4

  /** The fields of an IPv4 header but for the lengths and the protocol; flags are its three flag bits. */
  datatype Ipv4Fields = Ipv4Fields(tos: byte, ident: u16, flags: nat, frag: u16, ttl: byte, sum: u16, src: u32, dst: u32, options: seq<byte>)

  predicate ValidIpv4(f: Ipv4Fields) {
    f.flags < 8 && f.frag < 0x2000 && |f.options| % 4 == 0 && |f.options| <= 40
  }

  function Ipv4Fixed(f: Ipv4Fields, protocol: byte, total: u16): (r: seq<byte>)
    requires ValidIpv4(f)
    ensures |r| == IPV4_MIN_HEADER_LEN
  {
    [0x45 + |f.options| / 4, f.tos] + Put16(total) + Put16(f.ident) + Put16(f.flags * 0x2000 + f.frag)
    + [f.ttl, protocol] + Put16(f.sum) + Put32(f.src) + Put32(f.dst)
  }

  predicate FitsIpv4(f: Ipv4Fields, body: seq<byte>) {
    ValidIpv4(f) && IPV4_MIN_HEADER_LEN + |f.options| + |body| < 0x1_0000
  }

  function Ipv4Bytes(f: Ipv4Fields, protocol: byte, body: seq<byte>): seq<byte>
    requires FitsIpv4(f, body)
  {
    Ipv4Fixed(f, protocol, IPV4_MIN_HEADER_LEN + |f.options| + |body|) + f.options + body
  }

  lemma Ipv4FixedFields(f: Ipv4Fields, protocol: byte, total: u16, rest: seq<byte>)
    requires ValidIpv4(f)
    ensures var b := Ipv4Fixed(f, protocol, total) + rest;
            && b[0] == 0x45 + |f.options| / 4 && U16(b, 2) == total && U16(b, 6) == f.flags * 0x2000 + f.frag
            && b[8] == f.ttl && b[9] == protocol && U32(b, 12) == f.src && U32(b, 16) == f.dst
  {
    var b := Ipv4Fixed(f, protocol, total) + rest;
    assert b[2..4] == Put16(total) && b[6..8] == Put16(f.flags * 0x2000 + f.frag);
    assert b[12..16] == Put32(f.src) && b[16..20] == Put32(f.dst);
    U16Within(b, 2, total);
    U16Within(b, 6, f.flags * 0x2000 + f.frag);
    U32Within(b, 12, f.src);
    U32Within(b, 16, f.dst);
  }

  /** What the parser makes of such a packet: a later fragment keeps no payload. */
  function Ipv4PacketOf(f: Ipv4Fields, protocol: byte, body: seq<byte>): Ipv4Packet {
    Ipv4Packet(IPV4_MIN_HEADER_LEN + |f.options|, IPV4_MIN_HEADER_LEN + |f.options| + |body|, f.ttl, protocol, V4(f.src), V4(f.dst),
               f.frag, f.flags % 2 == 1, false, if f.frag != 0 then [] else body, f.frag != 0)
  }

  /** The packed bit fields come apart again. */
  lemma Ipv4Bits(f: Ipv4Fields)
    requires ValidIpv4(f)
    ensures (0x45 + |f.options| / 4) / 16 == 4 && (0x45 + |f.options| / 4) % 16 * 4 == IPV4_MIN_HEADER_LEN + |f.options|
    ensures (f.flags * 0x2000 + f.frag) % 0x2000 == f.frag && (f.flags * 0x2000 + f.frag) / 0x2000 == f.flags
  {
  }

  /** A buffer that holds at least the total length parses to its fields. */
  lemma Ipv4ReadsFields(b: seq<byte>, hl: nat, total: nat, frag: u16, flags: nat)
    requires IPV4_MIN_HEADER_LEN <= hl <= total <= |b|
    requires b[0] / 16 == 4 && b[0] % 16 * 4 == hl && U16(b, 2) == total
    requires U16(b, 6) % 0x2000 == frag && U16(b, 6) / 0x2000 == flags
    ensures ParseIpv4(b) == Ok(Ipv4Packet(hl, total, b[8], b[9], V4(U32(b, 12)), V4(U32(b, 16)), frag, flags % 2 == 1, false,
                                          if frag != 0 then [] else b[hl..total], frag != 0))
  {
  }

  lemma Ipv4FixedReads(f: Ipv4Fields, protocol: byte, total: u16, rest: seq<byte>)
    requires ValidIpv4(f)
    ensures var b := Ipv4Fixed(f, protocol, total) + rest;
            && b[0] / 16 == 4 && b[0] % 16 * 4 == IPV4_MIN_HEADER_LEN + |f.options| && U16(b, 2) == total
            && U16(b, 6) % 0x2000 == f.frag && U16(b, 6) / 0x2000 == f.flags
            && b[8] == f.ttl && b[9] == protocol && U32(b, 12) == f.src && U32(b, 16) == f.dst
  {
    Ipv4FixedFields(f, protocol, total, rest);
    Ipv4Bits(f);
  }

  /** A packet reads back with its addresses, whatever padding follows it. */
  lemma Ipv4Parses(f: Ipv4Fields, protocol: byte, body: seq<byte>, pad: seq<byte>)
    requires FitsIpv4(f, body)
    ensures ParseIpv4(Ipv4Bytes(f, protocol, body) + pad) == Ok(Ipv4PacketOf(f, protocol, body))
  {
    var hl := IPV4_MIN_HEADER_LEN + |f.options|;
    var b := Ipv4Bytes(f, protocol, body) + pad;
    assert b == Ipv4Fixed(f, protocol, hl + |body|) + (f.options + body + pad);
    Ipv4FixedReads(f, protocol, hl + |body|, f.options + body + pad);
    assert b[hl..hl + |body|] == body;
    Ipv4ReadsFields(b, hl, hl + |body|, f.frag, f.flags);
  }

  // ---------------------------------------------------------------- Ethernet

  predicate ValidTag(t: VlanTag) {
    (t.tpid == ETHERTYPE_VLAN || t.tpid == ETHERTYPE_QINQ) && t.id < 0x1000 && t.priority < 8
  }

  function TagControl(t: VlanTag): u16
    requires ValidTag(t)
  {
    var priority: int, dei := t.priority, if t.dei then 1 else 0;
    (2 * priority + dei) * 0x1000 + t.id
  }

  lemma TagBits(t: VlanTag)
    requires ValidTag(t)
    ensures var tci := TagControl(t); tci % 0x1000 == t.id && tci / 0x2000 == t.priority && (tci / 0x1000 % 2 == 1) == t.dei
  {
    var priority: int, dei := t.priority, if t.dei then 1 else 0;
    assert TagControl(t) / 0x1000 == 2 * priority + dei;
  }

  function TagBytes(tag: Option<VlanTag>): seq<byte>
    requires tag.Some? ==> ValidTag(tag.value)
  {
    match tag
    case None => []
    case Some(t) => Put16(t.tpid) + Put16(TagControl(t))
  }

  /** Without a tag, the type must not look like one. */
  predicate ValidFrame(f: Frame) {
    && |f.destination| == 6 && |f.source| == 6
    && if f.vlan.Some? then ValidTag(f.vlan.value) else f.etherType != ETHERTYPE_VLAN && f.etherType != ETHERTYPE_QINQ
  }

  function EthernetBytes(f: Frame): seq<byte>
    requires ValidFrame(f)
  {
    f.destination + f.source + TagBytes(f.vlan) + Put16(f.etherType) + f.payload
  }

  lemma UntaggedParses(f: Frame)
    requires ValidFrame(f) && f.vlan.None?
    ensures ParseEthernet(EthernetBytes(f)) == Ok(f)
  {
    var b := EthernetBytes(f);
    assert b == f.destination + f.source + Put16(f.etherType) + f.payload;
    assert b[12..14] == Put16(f.etherType);
    U16Within(b, 12, f.etherType);
    assert b[0..6] == f.destination && b[6..12] == f.source && b[14..] == f.payload;
  }

  lemma TaggedParses(f: Frame)
    requires ValidFrame(f) && f.vlan.Some?
    ensures ParseEthernet(EthernetBytes(f)) == Ok(f)
  {
    var t := f.vlan.value;
    var tci := TagControl(t);
    TagBits(t);
    var b := EthernetBytes(f);
    assert b == f.destination + f.source + Put16(t.tpid) + Put16(tci) + Put16(f.etherType) + f.payload;
    assert b[12..14] == Put16(t.tpid) && b[14..16] == Put16(tci) && b[16..18] == Put16(f.etherType);
    U16Within(b, 12, t.tpid);
    U16Within(b, 14, tci);
    U16Within(b, 16, f.etherType);
    assert b[0..6] == f.destination && b[6..12] == f.source && b[18..] == f.payload;
  }

  /** A frame reads back, tagged or not. */
  lemma EthernetParses(f: Frame)
    requires ValidFrame(f)
    ensures ParseEthernet(EthernetBytes(f)) == Ok(f)
  {
    if f.vlan.Some? {
      TaggedParses(f);
    } else {
      UntaggedParses(f);
    }
  }
}
