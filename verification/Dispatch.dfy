/**
  What the decoder makes of the bytes on the wire (internal/decode/decode.go): which parser a datagram
  or segment goes to, what comes out of it, and what becomes of the datagrams that wirepup builds.
 */
module Dispatch {
  import opened Bytes
  import opened NetIp
  import opened Wrappers
  import opened Wire
  import opened Packets
  import opened Decode
  import opened Stream
  import Ca
  import Pva
  import PvaBuild
  import PvaMessages
  import opened PvaReader

  // ---------------------------------------------------------------- messages and observations

  /** One observation for each message, in order; a malformed one is only a strong hint. */
  ghost predicate PvaEach(obs: seq<Observation>, ms: seq<Pva.Message>, t: PvaMessages.Transport, src: Addr, dst: Addr, sp: u16, dp: u16,
                          conf: Confidence) {
    && |obs| == |ms|
    && forall k :: 0 <= k < |ms| ==>
         var o := PvaMessages.Interpreted(ms[k], t, src, dst, sp, dp);
         obs[k] == PvaSeen(o, if o.decoded.malformed then StrongHint else conf)
  }

  ghost predicate CaEach(obs: seq<Observation>, ms: seq<Ca.Message>, t: Ca.Transport, src: Addr, dst: Addr, sp: u16, dp: u16, port: u16,
                         conf: Confidence) {
    |obs| == |ms| && forall k :: 0 <= k < |ms| ==> obs[k] == CaSeen(Ca.Interpret(ms[k], t, src, dst, sp, dp, port), conf)
  }

  /**
    The payload was read as PVAccess: what comes out is one observation for each of the messages it
    starts with. A rest that is no message makes them strong hints in a segment and void in a datagram.
   */
  ghost predicate ReadAsPva(obs: seq<Observation>, payload: seq<byte>, t: PvaMessages.Transport, src: Addr, dst: Addr, sp: u16, dp: u16,
                            conf: Confidence) {
    forall ms, rest :: Splits(Pva.MessageCodec(), payload, ms, rest) ==>
      if t == PvaMessages.Udp && rest != [] then obs == []
      else PvaEach(obs, ms, t, src, dst, sp, dp, if rest == [] then conf else StrongHint)
  }

  function CaCodec(t: Ca.Transport): Codec<Ca.Message, Ca.Error> {
    Ca.MessageCodec(t == Ca.Udp)
  }

  ghost predicate ReadAsCa(obs: seq<Observation>, payload: seq<byte>, t: Ca.Transport, src: Addr, dst: Addr, sp: u16, dp: u16, port: u16,
                           conf: Confidence) {
    forall ms, rest :: Splits(CaCodec(t), payload, ms, rest) ==>
      if t == Ca.Udp && rest != [] then obs == []
      else CaEach(obs, ms, t, src, dst, sp, dp, port, if rest == [] then conf else StrongHint)
  }

  lemma {:induction false} PvaObservationsEach(ms: seq<Pva.Message>, t: PvaMessages.Transport, src: Addr, dst: Addr, sp: u16, dp: u16,
                                               conf: Confidence)
    ensures PvaEach(PvaObservations(ms, t, src, dst, sp, dp, conf), ms, t, src, dst, sp, dp, conf)
  {
    if ms == [] {
    } else {
      PvaObservationsEach(ms[1..], t, src, dst, sp, dp, conf);
      assert forall k :: 1 <= k < |ms| ==> ms[k] == ms[1..][k - 1];
    }
  }

  lemma {:induction false} CaObservationsEach(ms: seq<Ca.Message>, t: Ca.Transport, src: Addr, dst: Addr, sp: u16, dp: u16, port: u16,
                                              conf: Confidence)
    ensures CaEach(CaObservations(ms, t, src, dst, sp, dp, port, conf), ms, t, src, dst, sp, dp, port, conf)
  {
    if ms == [] {
    } else {
      CaObservationsEach(ms[1..], t, src, dst, sp, dp, port, conf);
      assert forall k :: 1 <= k < |ms| ==> ms[k] == ms[1..][k - 1];
    }
  }

  lemma PvaIsRead(t: PvaMessages.Transport, src: Addr, dst: Addr, sp: u16, dp: u16, payload: seq<byte>, conf: Confidence)
    ensures ReadAsPva(DecodedPva(t, src, dst, sp, dp, payload, conf), payload, t, src, dst, sp, dp, conf)
  {
    Pva.CodecSound();
    forall ms, rest | Splits(Pva.MessageCodec(), payload, ms, rest)
      ensures var obs := DecodedPva(t, src, dst, sp, dp, payload, conf);
              if t == PvaMessages.Udp && rest != [] then obs == []
              else PvaEach(obs, ms, t, src, dst, sp, dp, if rest == [] then conf else StrongHint)
    {
      SplitParses(Pva.MessageCodec(), payload, Pva.Truncated, ms, rest);
      PvaObservationsEach(ms, t, src, dst, sp, dp, if rest == [] then conf else StrongHint);
    }
  }

  lemma CaIsRead(s: Hints, t: Ca.Transport, src: Addr, dst: Addr, sp: u16, dp: u16, payload: seq<byte>, conf: Confidence)
    ensures ReadAsCa(DecodedCa(s, t, src, dst, sp, dp, payload, conf), payload, t, src, dst, sp, dp, s.ports.caServer, conf)
  {
    var udp := t == Ca.Udp;
    Ca.CodecSound(udp);
    forall ms, rest | Splits(CaCodec(t), payload, ms, rest)
      ensures var obs := DecodedCa(s, t, src, dst, sp, dp, payload, conf);
              if udp && rest != [] then obs == []
              else CaEach(obs, ms, t, src, dst, sp, dp, s.ports.caServer, if rest == [] then conf else StrongHint)
    {
      SplitParses(Ca.MessageCodec(udp), payload, Ca.Truncated, ms, rest);
      CaObservationsEach(ms, t, src, dst, sp, dp, s.ports.caServer, if rest == [] then conf else StrongHint);
    }
  }

  // ---------------------------------------------------------------- recognition by structure

  /** The bytes of a PVAccess header: magic, a known version, no reserved flag, and a known command or a control message. */
  predicate StartsPva(b: seq<byte>) {
    |b| >= 8 && b[0] == 0xCA && (b[1] == 1 || b[1] == 2) && b[2] / 2 % 8 == 0 && (b[2] % 2 == 1 || b[3] <= 22)
  }

  lemma PvaRecognized(b: seq<byte>)
    ensures Pva.Probable(b) <==> StartsPva(b)
  {
  }

  /** Whatever is an encoding of PVAccess messages is recognized, on any port. */
  lemma PvaStreamRecognized(b: seq<byte>, ms: seq<Pva.Message>, rest: seq<byte>)
    requires ms != [] && Splits(Pva.MessageCodec(), b, ms, rest)
    ensures StartsPva(b)
  {
    var m := ms[0];
    assert m in ms;
    assert b == Pva.Encode(m) + (EncodeAll(Pva.MessageCodec(), ms[1..]) + rest);
    assert b[..8] == Pva.EncodeHeader(m.h);
    assert b[0] == b[..8][0] && b[1] == b[..8][1] && b[2] == b[..8][2] && b[3] == b[..8][3];
  }

  /** The bytes of a first header that only Channel Access sends: a search, a beacon or a version message with telling fields. */
  predicate StartsCa(b: seq<byte>) {
    |b| >= 16 &&
    var extended := U16(b, 2) == 0xffff && U16(b, 6) == 0;
    (extended ==> |b| >= 24) &&
    var size: u32 := if extended then U32(b, 16) else U16(b, 2);
    var count: u32 := if extended then U32(b, 20) else U16(b, 6);
    || (U16(b, 0) == 6 && (U16(b, 4) == 10 || U16(b, 4) == 5 || U32(b, 8) == 0xffff_ffff) && size % 8 == 0)
    || (U16(b, 0) == 13 && size == 0 && 0 < count < 65536)
    || (U16(b, 0) == 0 && size == 0 && count <= 64)
  }

  lemma CaRecognized(b: seq<byte>)
    ensures |b| >= Ca.HEADER_LEN && Ca.Probable(b) <==> StartsCa(b)
  {
  }

  // ---------------------------------------------------------------- datagrams

  predicate OnPort(sp: u16, dp: u16, port: u16) {
    sp == port || dp == port
  }

  predicate OnDhcp(sp: u16, dp: u16) {
    OnPort(sp, dp, 67) || OnPort(sp, dp, 68)
  }

  predicate OnCa(ports: Ports, sp: u16, dp: u16) {
    OnPort(sp, dp, ports.caServer) || OnPort(sp, dp, ports.caRepeater)
  }

  /** What the port pair and the first bytes of a datagram decide. */
  ghost predicate UdpYields(s: Hints, ps: Parsers, src: Addr, dst: Addr, sp: u16, dp: u16, payload: seq<byte>, obs: seq<Observation>) {
    if OnDhcp(sp, dp) then obs == if ps.dhcp(payload) then [DhcpSeen(Datagram(sp, dp, 8 + |payload|, false, payload))] else []
    else if OnCa(s.ports, sp, dp) then ReadAsCa(obs, payload, Ca.Udp, src, dst, sp, dp, s.ports.caServer, Confirmed)
    else if OnPort(sp, dp, s.ports.pvaUdp) then ReadAsPva(obs, payload, PvaMessages.Udp, src, dst, sp, dp, Confirmed)
    else if StartsPva(payload) then ReadAsPva(obs, payload, PvaMessages.Udp, src, dst, sp, dp, StrongHint)
    else if StartsCa(payload) then ReadAsCa(obs, payload, Ca.Udp, src, dst, sp, dp, s.ports.caServer, StrongHint)
    else obs == []
  }

  lemma UdpDispatch(s: Hints, ps: Parsers, src: Addr, dst: Addr, sp: u16, dp: u16, sum: u16, payload: seq<byte>)
    requires 8 + |payload| < 0x1_0000
    ensures UdpYields(s, ps, src, dst, sp, dp, payload, DecodedUdp(s, ps, src, dst, UdpBytes(sp, dp, sum, payload)))
  {
    UdpParses(sp, dp, sum, payload, []);
    assert UdpBytes(sp, dp, sum, payload) + [] == UdpBytes(sp, dp, sum, payload);
    if OnDhcp(sp, dp) {
    } else if OnCa(s.ports, sp, dp) {
      CaIsRead(s, Ca.Udp, src, dst, sp, dp, payload, Confirmed);
    } else if OnPort(sp, dp, s.ports.pvaUdp) {
      PvaIsRead(PvaMessages.Udp, src, dst, sp, dp, payload, Confirmed);
    } else {
      PvaRecognized(payload);
      CaRecognized(payload);
      if StartsPva(payload) {
        PvaIsRead(PvaMessages.Udp, src, dst, sp, dp, payload, StrongHint);
      } else if StartsCa(payload) {
        CaIsRead(s, Ca.Udp, src, dst, sp, dp, payload, StrongHint);
      }
    }
  }

  // ---------------------------------------------------------------- segments

  predicate OnPvaTcp(s: Hints, sp: u16, dp: u16) {
    OnPort(sp, dp, s.ports.pvaTcp) || sp in s.pvaTcp || dp in s.pvaTcp
  }

  predicate OnCaTcp(s: Hints, sp: u16, dp: u16) {
    OnPort(sp, dp, s.ports.caServer) || sp in s.caTcp || dp in s.caTcp
  }

  /** What the ports and the first bytes of a segment decide; ports count that servers have advertised. */
  ghost predicate TcpYields(s: Hints, src: Addr, dst: Addr, sp: u16, dp: u16, payload: seq<byte>, obs: seq<Observation>) {
    if payload == [] then obs == []
    else if OnPvaTcp(s, sp, dp) then ReadAsPva(obs, payload, PvaMessages.Tcp, src, dst, sp, dp, Confirmed)
    else if StartsPva(payload) then ReadAsPva(obs, payload, PvaMessages.Tcp, src, dst, sp, dp, StrongHint)
    else if OnCaTcp(s, sp, dp) then ReadAsCa(obs, payload, Ca.Tcp, src, dst, sp, dp, s.ports.caServer, Confirmed)
    else obs == []
  }

  lemma PvaSegment(s: Hints, src: Addr, dst: Addr, seg: Segment)
    requires seg.payload != [] && (OnPvaTcp(s, seg.srcPort, seg.dstPort) || StartsPva(seg.payload))
    ensures ReadAsPva(DecodedSegment(s, src, dst, seg), seg.payload, PvaMessages.Tcp, src, dst, seg.srcPort, seg.dstPort,
                      if OnPvaTcp(s, seg.srcPort, seg.dstPort) then Confirmed else StrongHint)
  {
    PvaRecognized(seg.payload);
    PvaIsRead(PvaMessages.Tcp, src, dst, seg.srcPort, seg.dstPort, seg.payload,
              if OnPvaTcp(s, seg.srcPort, seg.dstPort) then Confirmed else StrongHint);
  }

  lemma CaSegment(s: Hints, src: Addr, dst: Addr, seg: Segment)
    requires seg.payload != [] && !OnPvaTcp(s, seg.srcPort, seg.dstPort) && !StartsPva(seg.payload)
    ensures var obs := DecodedSegment(s, src, dst, seg);
            if OnCaTcp(s, seg.srcPort, seg.dstPort)
            then ReadAsCa(obs, seg.payload, Ca.Tcp, src, dst, seg.srcPort, seg.dstPort, s.ports.caServer, Confirmed)
            else obs == []
  {
    PvaRecognized(seg.payload);
    CaIsRead(s, Ca.Tcp, src, dst, seg.srcPort, seg.dstPort, seg.payload, Confirmed);
  }

  lemma SegmentDispatch(s: Hints, src: Addr, dst: Addr, seg: Segment)
    ensures TcpYields(s, src, dst, seg.srcPort, seg.dstPort, seg.payload, DecodedSegment(s, src, dst, seg))
  {
    if seg.payload != [] {
      if OnPvaTcp(s, seg.srcPort, seg.dstPort) || StartsPva(seg.payload) {
        PvaSegment(s, src, dst, seg);
      } else {
        CaSegment(s, src, dst, seg);
      }
    }
  }

  /** A segment with SYN, FIN or RST is an event of its own; its payload is dispatched besides. */
  lemma TcpDispatch(s: Hints, src: Addr, dst: Addr, t: TcpFields, payload: seq<byte>)
    requires ValidTcp(t)
    ensures var obs := DecodedTcp(s, src, dst, TcpBytes(t, payload));
            var events := if t.flags % 8 != 0 then 1 else 0;
            && events <= |obs|
            && (events == 1 ==> obs[0].TcpSeen? && obs[0].segment.srcPort == t.sp && obs[0].segment.dstPort == t.dp
                                && obs[0].segment.flags == t.flags && obs[0].segment.payload == payload)
            && TcpYields(s, src, dst, t.sp, t.dp, payload, obs[events..])
  {
    TcpParses(t, payload);
    SegmentDispatch(s, src, dst, ParseTcp(TcpBytes(t, payload)).value);
  }

  // ---------------------------------------------------------------- whole frames

  /** The bytes of an IPv4 packet in a frame, tagged or not, with its padding. */
  predicate CarriesIpv4(data: seq<byte>, f: Frame, ip: Ipv4Fields, protocol: byte, body: seq<byte>, pad: seq<byte>) {
    && ValidFrame(f) && f.etherType == ETHERTYPE_IPV4 && FitsIpv4(ip, body)
    && f.payload == Ipv4Bytes(ip, protocol, body) + pad && data == EthernetBytes(f)
  }

  /** What the transport of a packet yields: nothing for a later fragment. */
  ghost function TransportOf(s: Hints, ps: Parsers, ip: Ipv4Fields, protocol: byte, body: seq<byte>): seq<Observation> {
    if ip.frag != 0 then []
    else if protocol == 17 then DecodedUdp(s, ps, V4(ip.src), V4(ip.dst), body)
    else if protocol == 6 then DecodedTcp(s, V4(ip.src), V4(ip.dst), body)
    else []
  }

  lemma Ipv4Yields(s: Hints, ps: Parsers, ip: Ipv4Fields, protocol: byte, body: seq<byte>, pad: seq<byte>)
    requires FitsIpv4(ip, body)
    ensures DecodedIpv4(s, ps, Ipv4Bytes(ip, protocol, body) + pad) ==
              [Ipv4Seen(Ipv4PacketOf(ip, protocol, body))] + TransportOf(s, ps, ip, protocol, body)
  {
    Ipv4Parses(ip, protocol, body, pad);
  }

  lemma Ipv4FrameStarts(s: State, ps: Parsers, f: Frame)
    requires ValidFrame(f) && f.etherType == ETHERTYPE_IPV4
    ensures Decoded(s, ps, Packet(LINK_TYPE_ETHERNET, EthernetBytes(f))) == [FrameSeen(f)] + DecodedIpv4(s.hints, ps, f.payload)
  {
    EthernetParses(f);
  }

  lemma TwoFirst(x: Observation, y: Observation, rest: seq<Observation>)
    ensures [x] + ([y] + rest) == [x, y] + rest
  {
  }

  /** A frame with an IPv4 packet is seen, and so is the packet; only a first fragment is decoded further. */
  lemma Ipv4FrameDecodes(s: State, ps: Parsers, data: seq<byte>, f: Frame, ip: Ipv4Fields, protocol: byte, body: seq<byte>, pad: seq<byte>)
    requires CarriesIpv4(data, f, ip, protocol, body, pad)
    ensures Decoded(s, ps, Packet(LINK_TYPE_ETHERNET, data)) ==
              [FrameSeen(f), Ipv4Seen(Ipv4PacketOf(ip, protocol, body))] + TransportOf(s.hints, ps, ip, protocol, body)
  {
    Ipv4FrameStarts(s, ps, f);
    Ipv4Yields(s.hints, ps, ip, protocol, body, pad);
    TwoFirst(FrameSeen(f), Ipv4Seen(Ipv4PacketOf(ip, protocol, body)), TransportOf(s.hints, ps, ip, protocol, body));
  }

  predicate CarriesUdp(data: seq<byte>, f: Frame, ip: Ipv4Fields, sp: u16, dp: u16, sum: u16, payload: seq<byte>, pad: seq<byte>) {
    8 + |payload| < 0x1_0000 && ip.frag == 0 && CarriesIpv4(data, f, ip, 17, UdpBytes(sp, dp, sum, payload), pad)
  }

  predicate CarriesTcp(data: seq<byte>, f: Frame, ip: Ipv4Fields, t: TcpFields, payload: seq<byte>, pad: seq<byte>) {
    ValidTcp(t) && ip.frag == 0 && CarriesIpv4(data, f, ip, 6, TcpBytes(t, payload), pad)
  }

  /** What comes of a datagram in a frame is decided by its ports and first bytes. */
  lemma UdpFrameDispatch(s: State, ps: Parsers, data: seq<byte>, f: Frame, ip: Ipv4Fields, sp: u16, dp: u16, sum: u16, payload: seq<byte>,
                         pad: seq<byte>)
    requires CarriesUdp(data, f, ip, sp, dp, sum, payload, pad)
    ensures var obs := Decoded(s, ps, Packet(LINK_TYPE_ETHERNET, data));
            && |obs| >= 2 && obs[0] == FrameSeen(f) && obs[1].Ipv4Seen?
            && obs[1].packet.src == V4(ip.src) && obs[1].packet.dst == V4(ip.dst)
            && UdpYields(s.hints, ps, V4(ip.src), V4(ip.dst), sp, dp, payload, obs[2..])
  {
    var body := UdpBytes(sp, dp, sum, payload);
    Ipv4FrameDecodes(s, ps, data, f, ip, 17, body, pad);
    UdpDispatch(s.hints, ps, V4(ip.src), V4(ip.dst), sp, dp, sum, payload);
    assert Decoded(s, ps, Packet(LINK_TYPE_ETHERNET, data))[2..] == DecodedUdp(s.hints, ps, V4(ip.src), V4(ip.dst), body);
  }

  /** What comes of a segment in a frame is decided by its flags, its ports and first bytes. */
  lemma TcpFrameDispatch(s: State, ps: Parsers, data: seq<byte>, f: Frame, ip: Ipv4Fields, t: TcpFields, payload: seq<byte>, pad: seq<byte>)
    requires CarriesTcp(data, f, ip, t, payload, pad)
    ensures var obs := Decoded(s, ps, Packet(LINK_TYPE_ETHERNET, data));
            var events := if t.flags % 8 != 0 then 1 else 0;
            && |obs| >= 2 + events && obs[0] == FrameSeen(f) && obs[1].Ipv4Seen?
            && (events == 1 ==> obs[2].TcpSeen? && obs[2].segment.srcPort == t.sp && obs[2].segment.dstPort == t.dp)
            && TcpYields(s.hints, V4(ip.src), V4(ip.dst), t.sp, t.dp, payload, obs[2 + events..])
  {
    var body := TcpBytes(t, payload);
    var events := if t.flags % 8 != 0 then 1 else 0;
    Ipv4FrameDecodes(s, ps, data, f, ip, 6, body, pad);
    TcpDispatch(s.hints, V4(ip.src), V4(ip.dst), t, payload);
    var obs, rest := Decoded(s, ps, Packet(LINK_TYPE_ETHERNET, data)), DecodedTcp(s.hints, V4(ip.src), V4(ip.dst), body);
    assert obs[2..] == rest && obs[2 + events..] == rest[events..];
  }

  // ---------------------------------------------------------------- what wirepup builds

  /** A single observation at the end advertises its port. */
  lemma LastAdvertises(obs: seq<Observation>, o: Observation)
    requires |obs| == 3 && obs[2] == o
    ensures o.PvaSeen? ==> PvaPort(o.pva) <= PvaPorts(obs)
    ensures o.CaSeen? ==> CaPort(o.ca) <= CaPorts(obs)
  {
    assert obs == obs[..2] + [o];
    PortsConcat(obs[..2], [o]);
    PortsSingle(o);
  }

  /** A datagram that is one PVAccess message, on a port that is neither DHCP's nor Channel Access's, yields its observation. */
  lemma PvaDatagram(s: State, ps: Parsers, data: seq<byte>, f: Frame, ip: Ipv4Fields, sp: u16, dp: u16, sum: u16, payload: seq<byte>,
                    pad: seq<byte>, m: Pva.Message)
    requires CarriesUdp(data, f, ip, sp, dp, sum, payload, pad) && !OnDhcp(sp, dp) && !OnCa(s.hints.ports, sp, dp)
    requires Pva.ParseSpec(payload) == Parsed([m], None)
    ensures var obs := Decoded(s, ps, Packet(LINK_TYPE_ETHERNET, data));
            var o := PvaMessages.Interpreted(m, PvaMessages.Udp, V4(ip.src), V4(ip.dst), sp, dp);
            && |obs| == 3
            && obs[2] == PvaSeen(o, if OnPort(sp, dp, s.hints.ports.pvaUdp) && !o.decoded.malformed then Confirmed else StrongHint)
            && PvaPort(o) <= After(s, ps, Packet(LINK_TYPE_ETHERNET, data)).hints.pvaTcp
  {
    var obs := Decoded(s, ps, Packet(LINK_TYPE_ETHERNET, data));
    Pva.CodecSound();
    ParsedSplits(Pva.MessageCodec(), payload, Pva.Truncated, [m]);
    PvaStreamRecognized(payload, [m], []);
    UdpFrameDispatch(s, ps, data, f, ip, sp, dp, sum, payload, pad);
    assert |obs[2..]| == 1 && obs[2] == obs[2..][0];
    LastAdvertises(obs, obs[2]);
  }

  /**
    A built PVAccess beacon in a frame is decoded with its GUID, server and port, confirmed on the
    PVAccess port and a strong hint on others, and the decoder learns the port.
   */
  lemma BuiltPvaBeaconIsLearned(s: State, ps: Parsers, data: seq<byte>, f: Frame, ip: Ipv4Fields, sp: u16, dp: u16, sum: u16, pad: seq<byte>,
                                guid: seq<byte>, beaconSeq: byte, change: u16, server: Addr, port: u16)
    requires |guid| == Pva.GUID_LEN && !OnDhcp(sp, dp) && !OnCa(s.hints.ports, sp, dp)
    requires CarriesUdp(data, f, ip, sp, dp, sum,
                        PvaBuild.FrameBytes(Pva.CMD_BEACON, true, PvaBuild.BeaconPayload(guid, beaconSeq, change, server, port)), pad)
    ensures var pkt := Packet(LINK_TYPE_ETHERNET, data);
            var obs := Decoded(s, ps, pkt);
            && |obs| == 3 && obs[2].PvaSeen? && obs[2].pva.src == V4(ip.src)
            && obs[2].pvaConfidence == (if OnPort(sp, dp, s.hints.ports.pvaUdp) then Confirmed else StrongHint)
            && obs[2].pva.decoded == PvaMessages.Decoded(
                 PvaMessages.BeaconBody(guid, beaconSeq, change, PvaBuild.Announced(server, V4(ip.src)), port, PvaBuild.TCP_NAME, false), false)
            && (port != 0 ==> port in After(s, ps, pkt).hints.pvaTcp)
  {
    var payload := PvaBuild.BeaconPayload(guid, beaconSeq, change, server, port);
    PvaBuild.BeaconRoundTrip(guid, beaconSeq, change, server, port, V4(ip.src));
    PvaDatagram(s, ps, data, f, ip, sp, dp, sum, PvaBuild.FrameBytes(Pva.CMD_BEACON, true, payload), pad,
                PvaBuild.FrameMessage(Pva.CMD_BEACON, true, payload));
  }

  /** After a beacon, a segment from or to the port it advertised is read as PVAccess, on whatever port that is. */
  lemma BeaconOpensPort(s: State, ps: Parsers, data: seq<byte>, f: Frame, ip: Ipv4Fields, sp: u16, dp: u16, sum: u16, pad: seq<byte>,
                        guid: seq<byte>, beaconSeq: byte, change: u16, server: Addr, port: u16,
                        data': seq<byte>, f': Frame, ip': Ipv4Fields, t: TcpFields, payload: seq<byte>, pad': seq<byte>)
    requires |guid| == Pva.GUID_LEN && !OnDhcp(sp, dp) && !OnCa(s.hints.ports, sp, dp) && port != 0
    requires CarriesUdp(data, f, ip, sp, dp, sum,
                        PvaBuild.FrameBytes(Pva.CMD_BEACON, true, PvaBuild.BeaconPayload(guid, beaconSeq, change, server, port)), pad)
    requires CarriesTcp(data', f', ip', t, payload, pad') && (t.sp == port || t.dp == port) && payload != []
    ensures var obs := Decoded(After(s, ps, Packet(LINK_TYPE_ETHERNET, data)), ps, Packet(LINK_TYPE_ETHERNET, data'));
            var events := if t.flags % 8 != 0 then 1 else 0;
            && |obs| >= 2 + events
            && ReadAsPva(obs[2 + events..], payload, PvaMessages.Tcp, V4(ip'.src), V4(ip'.dst), t.sp, t.dp, Confirmed)
  {
    BuiltPvaBeaconIsLearned(s, ps, data, f, ip, sp, dp, sum, pad, guid, beaconSeq, change, server, port);
    TcpFrameDispatch(After(s, ps, Packet(LINK_TYPE_ETHERNET, data)), ps, data', f', ip', t, payload, pad');
  }

  /** A datagram that is one Channel Access message yields its observation on a Channel Access port, and by its first bytes on others. */
  lemma CaDatagram(s: State, ps: Parsers, data: seq<byte>, f: Frame, ip: Ipv4Fields, sp: u16, dp: u16, sum: u16, payload: seq<byte>,
                   pad: seq<byte>, m: Ca.Message)
    requires CarriesUdp(data, f, ip, sp, dp, sum, payload, pad) && !OnDhcp(sp, dp)
    requires OnCa(s.hints.ports, sp, dp) || (!OnPort(sp, dp, s.hints.ports.pvaUdp) && !StartsPva(payload) && StartsCa(payload))
    requires Ca.ParseSpec(payload, true) == Parsed([m], None)
    ensures var obs := Decoded(s, ps, Packet(LINK_TYPE_ETHERNET, data));
            var o := Ca.Interpret(m, Ca.Udp, V4(ip.src), V4(ip.dst), sp, dp, s.hints.ports.caServer);
            && |obs| == 3
            && obs[2] == CaSeen(o, if OnCa(s.hints.ports, sp, dp) then Confirmed else StrongHint)
            && CaPort(o) <= After(s, ps, Packet(LINK_TYPE_ETHERNET, data)).hints.caTcp
  {
    var obs := Decoded(s, ps, Packet(LINK_TYPE_ETHERNET, data));
    Ca.CodecSound(true);
    ParsedSplits(CaCodec(Ca.Udp), payload, Ca.Truncated, [m]);
    UdpFrameDispatch(s, ps, data, f, ip, sp, dp, sum, payload, pad);
    assert |obs[2..]| == 1 && obs[2] == obs[2..][0];
    LastAdvertises(obs, obs[2]);
  }

  /** A datagram that starts with a Channel Access command does not start like PVAccess. */
  lemma CaHeaderStarts(command: u16, size: u16, dataType: u16, count: u16, cid: u32, available: u32, rest: seq<byte>)
    requires command < 256
    ensures var b := Ca.HeaderBytes(command, size, dataType, count, cid, available) + rest;
            && !StartsPva(b) && U16(b, 0) == command && U16(b, 2) == size && U16(b, 4) == dataType && U16(b, 6) == count
            && U32(b, 8) == cid
  {
    var b := Ca.HeaderBytes(command, size, dataType, count, cid, available) + rest;
    Ca.HeaderFields(b, command, size, dataType, count, cid, available);
    assert b[0] == 0;
  }

  /** What does not start with the magic byte holds no PVAccess message. */
  lemma NoMagicNoPva(b: seq<byte>)
    requires b != [] && b[0] != Pva.MAGIC
    ensures Splits(Pva.MessageCodec(), b, [], b)
  {
    var c := Pva.MessageCodec();
    forall m | c.valid(m) ensures !(c.encode(m) <= b) {
      assert Pva.Encode(m)[0] == Pva.MAGIC;
    }
    assert EncodeAll(c, []) + b == b;
  }

  /** On the PVAccess port a datagram without the magic byte yields nothing. */
  lemma NoPvaDatagram(s: State, ps: Parsers, data: seq<byte>, f: Frame, ip: Ipv4Fields, sp: u16, dp: u16, sum: u16, payload: seq<byte>,
                      pad: seq<byte>)
    requires CarriesUdp(data, f, ip, sp, dp, sum, payload, pad) && payload != [] && payload[0] != Pva.MAGIC
    requires !OnDhcp(sp, dp) && !OnCa(s.hints.ports, sp, dp) && (OnPort(sp, dp, s.hints.ports.pvaUdp) || !StartsCa(payload))
    ensures |Decoded(s, ps, Packet(LINK_TYPE_ETHERNET, data))| == 2
  {
    NoMagicNoPva(payload);
    UdpFrameDispatch(s, ps, data, f, ip, sp, dp, sum, payload, pad);
    assert Decoded(s, ps, Packet(LINK_TYPE_ETHERNET, data))[2..] == [];
  }

  /**
    A built Channel Access beacon in a frame is decoded with its port, id and server, confirmed on the
    Channel Access ports and a strong hint on others, and the decoder learns the port. On other ports it
    is not recognized if it has no port, and on the PVAccess port not at all.
   */
  lemma BuiltCaBeaconIsLearned(s: State, ps: Parsers, data: seq<byte>, f: Frame, ip: Ipv4Fields, sp: u16, dp: u16, sum: u16, pad: seq<byte>,
                               port: u16, id: u32, server: Addr)
    requires !server.Unmap().V6? && !OnDhcp(sp, dp)
    requires CarriesUdp(data, f, ip, sp, dp, sum, Ca.BeaconBytes(port, id, server), pad)
    ensures var pkt := Packet(LINK_TYPE_ETHERNET, data);
            var obs := Decoded(s, ps, pkt);
            if OnCa(s.hints.ports, sp, dp) || (!OnPort(sp, dp, s.hints.ports.pvaUdp) && port != 0) then
              && |obs| == 3 && obs[2].CaSeen? && obs[2].caConfidence == (if OnCa(s.hints.ports, sp, dp) then Confirmed else StrongHint)
              && Ca.KindOf(obs[2].ca) == Ca.Beacon && obs[2].ca.serverPort == port && obs[2].ca.beaconId == id
              && obs[2].ca.serverIp == Ca.BeaconServer(server, V4(ip.src)) && obs[2].ca.src == V4(ip.src)
              && (port != 0 ==> port in After(s, ps, pkt).hints.caTcp)
            else |obs| == 2
  {
    var b := Ca.BeaconBytes(port, id, server);
    CaHeaderStarts(Ca.CMD_BEACON, 0, Ca.MINOR_REVISION, port, id, Ca.ServerField(server), []);
    assert b + [] == b;
    if OnCa(s.hints.ports, sp, dp) || (!OnPort(sp, dp, s.hints.ports.pvaUdp) && port != 0) {
      Ca.BeaconRoundTrip(port, id, server, Ca.Udp, V4(ip.src), V4(ip.dst), sp, dp, s.hints.ports.caServer);
      CaDatagram(s, ps, data, f, ip, sp, dp, sum, b, pad, Ca.ParseSpec(b, true).msgs[0]);
    } else {
      NoPvaDatagram(s, ps, data, f, ip, sp, dp, sum, b, pad);
    }
  }

  /**
    A built search reply in a frame is decoded as the sender's response to its id, and its port learned,
    if and only if it is not the one overlap of the classifier; on the PVAccess port it is not decoded at all.
   */
  lemma BuiltCaReplyIsLearned(s: State, ps: Parsers, data: seq<byte>, f: Frame, ip: Ipv4Fields, sp: u16, dp: u16, sum: u16, pad: seq<byte>,
                              id: u32, port: u16)
    requires !OnDhcp(sp, dp) && CarriesUdp(data, f, ip, sp, dp, sum, Ca.SearchReplyBytes(id, port), pad)
    ensures var pkt := Packet(LINK_TYPE_ETHERNET, data);
            var obs := Decoded(s, ps, pkt);
            if OnCa(s.hints.ports, sp, dp) || !OnPort(sp, dp, s.hints.ports.pvaUdp) then
              && |obs| == 3 && obs[2].CaSeen? && obs[2].caConfidence == (if OnCa(s.hints.ports, sp, dp) then Confirmed else StrongHint)
              && obs[2].ca.src == V4(ip.src) && obs[2].ca.dst == V4(ip.dst) && obs[2].ca.transport == Ca.Udp
              && (Ca.KindOf(obs[2].ca) == Ca.SearchResponse && obs[2].ca.searchId == id && obs[2].ca.serverPort == port
                  && obs[2].ca.serverIp == V4(ip.src)
                  <==> !(id == Ca.ANY_SENDER && (port == Ca.DO_REPLY || port == Ca.DONT_REPLY)))
              && (Ca.KindOf(obs[2].ca) == Ca.SearchResponse && port != 0 ==> port in After(s, ps, pkt).hints.caTcp)
            else |obs| == 2
  {
    var b := Ca.SearchReplyBytes(id, port);
    var rest := Put16(Ca.MINOR_REVISION) + Ca.Zeros(6);
    CaHeaderStarts(Ca.CMD_SEARCH, Ca.PAYLOAD_ALIGN, port, 0, Ca.ANY_SENDER, id, rest);
    assert b == Ca.HeaderBytes(Ca.CMD_SEARCH, Ca.PAYLOAD_ALIGN, port, 0, Ca.ANY_SENDER, id) + rest;
    if OnCa(s.hints.ports, sp, dp) || !OnPort(sp, dp, s.hints.ports.pvaUdp) {
      ReplyIs(id, port);
      CaDatagram(s, ps, data, f, ip, sp, dp, sum, b, pad, Ca.ReplyMessage(id, port));
    } else {
      NoPvaDatagram(s, ps, data, f, ip, sp, dp, sum, b, pad);
    }
  }

  /** A built reply is one message. */
  lemma ReplyIs(id: u32, port: u16)
    ensures Ca.ParseSpec(Ca.SearchReplyBytes(id, port), true) == Parsed([Ca.ReplyMessage(id, port)], None)
  {
    Ca.CodecSound(true);
    var c, m := Ca.MessageCodec(true), Ca.ReplyMessage(id, port);
    assert c.valid(m);
    EncodeSingle(c, m);
    assert c.encode(m) == Ca.SearchReplyBytes(id, port);
    ParsesExactly(c, Ca.SearchReplyBytes(id, port), Ca.Truncated, [m]);
  }

  lemma SearchSplits(id: u32, pv: seq<byte>, replyWanted: bool)
    requires |Ca.Padded(pv)| < 0x1_0000
    ensures Splits(CaCodec(Ca.Udp), Ca.SearchBytes(id, pv, replyWanted), [Ca.VersionMessage(id), Ca.SearchMessage(id, pv, replyWanted)], [])
  {
    Ca.CodecSound(true);
    Ca.SearchMessagesValid(id, pv, replyWanted);
    Ca.SearchEncodes(id, pv, replyWanted);
    assert Ca.Padded(pv)[Ca.ClaimedSize(pv)..] == [];
  }

  /**
    A built Channel Access search in a frame is decoded as a version message and a request of the
    sender with its id, whose name comes back exactly when it is printable and has at most 512 bytes.
   */
  lemma BuiltCaSearchIsSeen(s: State, ps: Parsers, data: seq<byte>, f: Frame, ip: Ipv4Fields, sp: u16, dp: u16, sum: u16, pad: seq<byte>,
                            id: u32, pv: seq<byte>, replyWanted: bool)
    requires !OnDhcp(sp, dp) && CarriesUdp(data, f, ip, sp, dp, sum, Ca.SearchBytes(id, pv, replyWanted), pad)
    ensures var obs := Decoded(s, ps, Packet(LINK_TYPE_ETHERNET, data));
            if OnCa(s.hints.ports, sp, dp) || !OnPort(sp, dp, s.hints.ports.pvaUdp) then
              && |obs| == 4 && obs[2].CaSeen? && obs[3].CaSeen? && Ca.KindOf(obs[2].ca) == Ca.OtherKind(Ca.CMD_VERSION)
              && obs[3].caConfidence == (if OnCa(s.hints.ports, sp, dp) then Confirmed else StrongHint)
              && Ca.KindOf(obs[3].ca) == Ca.Search && obs[3].ca.searchId == id && obs[3].ca.replyWanted == replyWanted
              && obs[3].ca.src == V4(ip.src)
              && (obs[3].ca.pvName == pv <==> Ca.Printable(pv) && |pv| <= Ca.MAX_PV_NAME_LEN)
            else |obs| == 2
  {
    var b := Ca.SearchBytes(id, pv, replyWanted);
    var rest := Ca.HeaderBytes(Ca.CMD_SEARCH, |Ca.Padded(pv)| % 0x1_0000, if replyWanted then Ca.DO_REPLY else Ca.DONT_REPLY,
                               Ca.MINOR_REVISION, id, id) + Ca.Padded(pv);
    assert b == Ca.HeaderBytes(Ca.CMD_VERSION, 0, 1, Ca.MINOR_REVISION, id, 0) + rest;
    CaHeaderStarts(Ca.CMD_VERSION, 0, 1, Ca.MINOR_REVISION, id, 0, rest);
    if OnCa(s.hints.ports, sp, dp) || !OnPort(sp, dp, s.hints.ports.pvaUdp) {
      SearchSplits(id, pv, replyWanted);
      UdpFrameDispatch(s, ps, data, f, ip, sp, dp, sum, b, pad);
      var obs := Decoded(s, ps, Packet(LINK_TYPE_ETHERNET, data));
      assert |obs[2..]| == 2 && obs[2] == obs[2..][0] && obs[3] == obs[2..][1];
      assert Ca.Padded(pv)[..Ca.ClaimedSize(pv)] == Ca.Padded(pv);
      Ca.NameSurvives(pv);
    } else {
      NoPvaDatagram(s, ps, data, f, ip, sp, dp, sum, b, pad);
    }
  }

  /** A built PVAccess search response in a frame is decoded with its GUID, ids, server and port, and the decoder learns the port. */
  lemma BuiltPvaResponseIsLearned(s: State, ps: Parsers, data: seq<byte>, f: Frame, ip: Ipv4Fields, sp: u16, dp: u16, sum: u16, pad: seq<byte>,
                                  guid: seq<byte>, id: i32, server: Addr, port: u16, found: bool, ids: seq<i32>)
    requires |guid| == Pva.GUID_LEN && !OnDhcp(sp, dp) && !OnCa(s.hints.ports, sp, dp)
    requires CarriesUdp(data, f, ip, sp, dp, sum,
                        PvaBuild.FrameBytes(Pva.CMD_SEARCH_RESPONSE, true, PvaBuild.ResponsePayload(guid, id, server, port, found, ids)), pad)
    ensures var pkt := Packet(LINK_TYPE_ETHERNET, data);
            var obs := Decoded(s, ps, pkt);
            && |obs| == 3 && obs[2].PvaSeen? && obs[2].pva.src == V4(ip.src) && obs[2].pva.dst == V4(ip.dst) && obs[2].pva.transport == PvaMessages.Udp
            && obs[2].pvaConfidence == (if OnPort(sp, dp, s.hints.ports.pvaUdp) then Confirmed else StrongHint)
            && obs[2].pva.decoded == PvaMessages.Decoded(
                 PvaMessages.ResponseBody(guid, id, PvaBuild.Announced(server, V4(ip.src)), port, PvaBuild.TCP_NAME, found, ids), false)
            && (port != 0 ==> port in After(s, ps, pkt).hints.pvaTcp)
  {
    var payload := PvaBuild.ResponsePayload(guid, id, server, port, found, ids);
    PvaBuild.ResponseRoundTrip(guid, id, server, port, found, ids, V4(ip.src));
    PvaDatagram(s, ps, data, f, ip, sp, dp, sum, PvaBuild.FrameBytes(Pva.CMD_SEARCH_RESPONSE, true, payload), pad,
                PvaBuild.FrameMessage(Pva.CMD_SEARCH_RESPONSE, true, payload));
  }

  /** A built PVAccess search in a frame is decoded with its sequence and flags, and its channel if the name has at most 500 bytes. */
  lemma BuiltPvaSearchIsSeen(s: State, ps: Parsers, data: seq<byte>, f: Frame, ip: Ipv4Fields, sp: u16, dp: u16, sum: u16, pad: seq<byte>,
                             id: i32, channel: i32, name: seq<byte>, replyRequired: bool, unicast: bool, port: u16)
    requires !OnDhcp(sp, dp) && !OnCa(s.hints.ports, sp, dp)
    requires CarriesUdp(data, f, ip, sp, dp, sum,
                        PvaBuild.FrameBytes(Pva.CMD_SEARCH, false, PvaBuild.SearchPayload(id, channel, name, replyRequired, unicast, port)), pad)
    ensures var obs := Decoded(s, ps, Packet(LINK_TYPE_ETHERNET, data));
            var fits := |name| <= Pva.MAX_CHANNEL_NAME;
            && |obs| == 3 && obs[2].PvaSeen? && obs[2].pva.src == V4(ip.src)
            && obs[2].pvaConfidence == (if OnPort(sp, dp, s.hints.ports.pvaUdp) && fits then Confirmed else StrongHint)
            && obs[2].pva.decoded == PvaMessages.Decoded(
                 PvaMessages.SearchBody(id, replyRequired, unicast, V6(ZERO16), port, [PvaBuild.TCP_NAME],
                                        if fits then [Channel(channel, name)] else []), !fits)
  {
    var payload := PvaBuild.SearchPayload(id, channel, name, replyRequired, unicast, port);
    PvaBuild.SearchRoundTrip(id, channel, name, replyRequired, unicast, port, V4(ip.src));
    PvaDatagram(s, ps, data, f, ip, sp, dp, sum, PvaBuild.FrameBytes(Pva.CMD_SEARCH, false, payload), pad,
                PvaBuild.FrameMessage(Pva.CMD_SEARCH, false, payload));
  }
}
