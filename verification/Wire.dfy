/** The Ethernet, IPv4, UDP and TCP header parsers (internal/protocol). */
module Wire {
  import opened Bytes
  import opened NetIp
  import opened Wrappers

  const ETHERTYPE_IPV4: u16 := 0x0800
  const ETHERTYPE_ARP: u16 := 0x0806
  const ETHERTYPE_VLAN: u16 := 0x8100
  const ETHERTYPE_QINQ: u16 := 0x88a8
  const ETHERTYPE_IPV6: u16 := 0x86dd
  const ETHERTYPE_LLDP: u16 := 0x88cc

  const PROTO_TCP: byte := 6
  const PROTO_UDP: byte := 17

  datatype WireError = Truncated | WrongVersion | BadHeaderLen

  // ---------------------------------------------------------------- Ethernet

  const ETHERNET_HEADER_LEN := 14
  const TAG_LEN := 4

  datatype VlanTag = VlanTag(tpid: u16, id: u16, priority: byte, dei: bool)

  datatype Frame = Frame(destination: seq<byte>, source: seq<byte>, etherType: u16, vlan: Option<VlanTag>, payload: seq<byte>)

  /** The header and at most one tag; a second tag stays in the payload. */
  function ParseEthernet(b: seq<byte>): Result<Frame, WireError> {
    if |b| < ETHERNET_HEADER_LEN then Err(Truncated)
    else
      var outer := U16(b, 12);
      if outer == ETHERTYPE_VLAN || outer == ETHERTYPE_QINQ then
        if |b| < ETHERNET_HEADER_LEN + TAG_LEN then Err(Truncated)
        else
          var tci := U16(b, 14);
          Ok(Frame(b[0..6], b[6..12], U16(b, 16), Some(VlanTag(outer, tci % 0x1000, tci / 0x2000, tci / 0x1000 % 2 == 1)), b[18..]))
      else Ok(Frame(b[0..6], b[6..12], outer, None, b[14..]))
  }

  // ---------------------------------------------------------------- IPv4

  const IPV4_MIN_HEADER_LEN := 20

  datatype Ipv4Packet = Ipv4Packet(headerLen: nat, totalLen: nat, ttl: byte, protocol: byte, src: Addr, dst: Addr,
                                   fragOffset: u16, moreFrags: bool, truncated: bool, payload: seq<byte>, payloadDrop: bool)

  function Min(a: int, b: int): int {
    if a < b then a else b
  }

  function Max(a: int, b: int): int {
    if a < b then b else a
  }

  /** Non-first fragments keep no payload; a short buffer cuts it. */
  function ParseIpv4(b: seq<byte>): Result<Ipv4Packet, WireError> {
    if |b| < IPV4_MIN_HEADER_LEN then Err(Truncated)
    else if b[0] / 16 != 4 then Err(WrongVersion)
    else
      var hl := b[0] % 16 * 4;
      if hl < IPV4_MIN_HEADER_LEN then Err(BadHeaderLen)
      else if |b| < hl then Err(Truncated)
      else
        var total, ff := U16(b, 2), U16(b, 6);
        var frag := ff % 0x2000;
        var end := Min(Max(total, hl), |b|);
        Ok(Ipv4Packet(hl, total, b[8], b[9], V4(U32(b, 12)), V4(U32(b, 16)), frag, ff / 0x2000 % 2 == 1,
                      Max(total, hl) > |b|, if frag != 0 then [] else b[hl..end], frag != 0))
  }

  // ---------------------------------------------------------------- UDP and TCP

  const UDP_HEADER_LEN := 8

  datatype Datagram = Datagram(srcPort: u16, dstPort: u16, length: nat, truncated: bool, payload: seq<byte>)

  function ParseUdp(b: seq<byte>): Result<Datagram, WireError> {
    if |b| < UDP_HEADER_LEN then Err(Truncated)
    else
      var length := U16(b, 4);
      var end := Min(Max(length, UDP_HEADER_LEN), |b|);
      Ok(Datagram(U16(b, 0), U16(b, 2), length, Max(length, UDP_HEADER_LEN) > |b|, b[UDP_HEADER_LEN..end]))
  }

  const TCP_MIN_HEADER_LEN := 20

  datatype Segment = Segment(srcPort: u16, dstPort: u16, sequence: u32, ack: u32, flags: byte, window: u16, headerLen: nat, payload: seq<byte>)

  function ParseTcp(b: seq<byte>): Result<Segment, WireError> {
    if |b| < TCP_MIN_HEADER_LEN then Err(Truncated)
    else
      var hl := b[12] / 16 * 4;
      if hl < TCP_MIN_HEADER_LEN then Err(BadHeaderLen)
      else if |b| < hl then Err(Truncated)
      else Ok(Segment(U16(b, 0), U16(b, 2), U32(b, 4), U32(b, 8), b[13], U16(b, 14), hl, b[hl..]))
  }

  /** SYN, FIN or RST is set. */
  predicate IsStateEvent(flags: byte) {
    flags % 8 != 0
  }
}
