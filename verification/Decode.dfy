/**
  The decoding pipeline (internal/decode/decode.go): one packet in, its observations out, frame
  first. The decoder counts packets and learns the TCP ports that EPICS servers advertise.
 */
module Decode {
  import opened Bytes
  import opened NetIp
  import opened Wrappers
  import opened Wire
  import Ca
  import Pva
  import PvaMessages

  const LINK_TYPE_ETHERNET: u32 := 1
  const DHCP_SERVER_PORT: u16 := 67
  const DHCP_CLIENT_PORT: u16 := 68

  datatype Packet = Packet(linkType: u32, data: seq<byte>)

  /** What the IPv6 walk found: the upper-layer payload, unless it was withheld. */
  datatype Ipv6Summary = Ipv6Summary(src: Addr, dst: Addr, nextHeader: byte, payload: seq<byte>, payloadDrop: bool)

  /** The parsers whose field layouts are not part of this model: what they accept. */
  datatype Parsers = Parsers(
    arp: seq<byte> -> bool,
    lldp: seq<byte> -> bool,
    ipv6: seq<byte> -> Option<Ipv6Summary>,
    icmpv6: seq<byte> -> bool,
    dhcp: seq<byte> -> bool)

  const NEXT_ICMPV6: byte := 58

  datatype Confidence = Confirmed | StrongHint

  datatype Observation =
    | FrameSeen(frame: Frame)
    | ArpSeen(arp: seq<byte>)
    | LldpSeen(lldp: seq<byte>)
    | Ipv4Seen(packet: Ipv4Packet)
    | Ipv6Seen(summary: Ipv6Summary)
    | Icmpv6Seen(icmpv6: seq<byte>)
    | DhcpSeen(datagram: Datagram)
    | TcpSeen(segment: Segment)
    | CaSeen(ca: Ca.Observation, caConfidence: Confidence)
    | PvaSeen(pva: PvaMessages.Observation, pvaConfidence: Confidence)

  datatype Ports = Ports(caServer: u16, caRepeater: u16, pvaUdp: u16, pvaTcp: u16)

  const DEFAULT_PORTS := Ports(Ca.DEFAULT_SERVER_PORT, Ca.DEFAULT_REPEATER_PORT, Pva.DEFAULT_UDP_PORT, Pva.DEFAULT_TCP_PORT)

  datatype Stats = Stats(packets: nat, decoded: nat, malformed: nat, skipped: nat)

  /** The configured ports and the server TCP ports learned so far. */
  datatype Hints = Hints(ports: Ports, caTcp: set<u16>, pvaTcp: set<u16>)

  datatype State = State(next: nat, stats: Stats, hints: Hints)

  const FRESH := State(0, Stats(0, 0, 0, 0), Hints(DEFAULT_PORTS, {}, {}))

  // ---------------------------------------------------------------- what a packet decodes to

  predicate IsPort(d: Datagram, port: u16) {
    d.srcPort == port || d.dstPort == port
  }

  predicate IsCaTcp(s: Hints, port: u16) {
    port == s.ports.caServer || port in s.caTcp
  }

  predicate IsPvaTcp(s: Hints, port: u16) {
    port == s.ports.pvaTcp || port in s.pvaTcp
  }

  /** The port one CA observation advertises. */
  function CaPort(o: Ca.Observation): set<u16> {
    if (Ca.KindOf(o) == Ca.SearchResponse || Ca.KindOf(o) == Ca.Beacon) && o.serverPort != 0 then {o.serverPort} else {}
  }

  function PvaPort(o: PvaMessages.Observation): set<u16> {
    if o.decoded.malformed then {}
    else
      match o.decoded.body
      case ResponseBody(_, _, _, port, _, _, _) => if port != 0 then {port} else {}
      case BeaconBody(_, _, _, _, port, _, _) => if port != 0 then {port} else {}
      case _ => {}
  }

  /** The ports the observations advertise. */
  function CaPorts(obs: seq<Observation>): set<u16> {
    if obs == [] then {} else (if obs[0].CaSeen? then CaPort(obs[0].ca) else {}) + CaPorts(obs[1..])
  }

  function PvaPorts(obs: seq<Observation>): set<u16> {
    if obs == [] then {} else (if obs[0].PvaSeen? then PvaPort(obs[0].pva) else {}) + PvaPorts(obs[1..])
  }

  function CaObservations(msgs: seq<Ca.Message>, t: Ca.Transport, src: Addr, dst: Addr, sp: u16, dp: u16, port: u16, conf: Confidence): seq<Observation> {
    if msgs == [] then []
    else [CaSeen(Ca.Interpret(msgs[0], t, src, dst, sp, dp, port), conf)] + CaObservations(msgs[1..], t, src, dst, sp, dp, port, conf)
  }

  function PvaObservations(msgs: seq<Pva.Message>, t: PvaMessages.Transport, src: Addr, dst: Addr, sp: u16, dp: u16, conf: Confidence): seq<Observation> {
    if msgs == [] then []
    else
      var o := PvaMessages.Interpreted(msgs[0], t, src, dst, sp, dp);
      [PvaSeen(o, if o.decoded.malformed then StrongHint else conf)] + PvaObservations(msgs[1..], t, src, dst, sp, dp, conf)
  }

  /** A UDP payload must parse as a whole; a TCP segment may end inside a message. */
  ghost function DecodedCa(s: Hints, t: Ca.Transport, src: Addr, dst: Addr, sp: u16, dp: u16, payload: seq<byte>, conf: Confidence): seq<Observation> {
    var p := Ca.ParseSpec(payload, t == Ca.Udp);
    if p.msgs == [] || (p.err.Some? && t == Ca.Udp) then []
    else CaObservations(p.msgs, t, src, dst, sp, dp, s.ports.caServer, if p.err.Some? then StrongHint else conf)
  }

  ghost function DecodedPva(t: PvaMessages.Transport, src: Addr, dst: Addr, sp: u16, dp: u16, payload: seq<byte>, conf: Confidence): seq<Observation> {
    var p := Pva.ParseSpec(payload);
    if p.msgs == [] || (p.err.Some? && t == PvaMessages.Udp) then []
    else PvaObservations(p.msgs, t, src, dst, sp, dp, if p.err.Some? then StrongHint else conf)
  }

  /** DHCP by port and content, CA and PVA by port, then by structure on other ports. */
  ghost function DecodedUdp(s: Hints, ps: Parsers, src: Addr, dst: Addr, payload: seq<byte>): seq<Observation> {
    match ParseUdp(payload)
    case Err(_) => []
    case Ok(d) =>
      if IsPort(d, DHCP_SERVER_PORT) || IsPort(d, DHCP_CLIENT_PORT) then
        if ps.dhcp(d.payload) then [DhcpSeen(d)] else []
      else if IsPort(d, s.ports.caServer) || IsPort(d, s.ports.caRepeater) then
        DecodedCa(s, Ca.Udp, src, dst, d.srcPort, d.dstPort, d.payload, Confirmed)
      else if IsPort(d, s.ports.pvaUdp) then
        DecodedPva(PvaMessages.Udp, src, dst, d.srcPort, d.dstPort, d.payload, Confirmed)
      else if Pva.Probable(d.payload) then
        DecodedPva(PvaMessages.Udp, src, dst, d.srcPort, d.dstPort, d.payload, StrongHint)
      else if |d.payload| >= Ca.HEADER_LEN && Ca.Probable(d.payload) then
        DecodedCa(s, Ca.Udp, src, dst, d.srcPort, d.dstPort, d.payload, StrongHint)
      else []
  }

  ghost function DecodedTcp(s: Hints, src: Addr, dst: Addr, payload: seq<byte>): seq<Observation> {
    match ParseTcp(payload)
    case Err(_) => []
    case Ok(seg) => (if IsStateEvent(seg.flags) then [TcpSeen(seg)] else []) + DecodedSegment(s, src, dst, seg)
  }

  /** PVA by port or structure, then CA by port. */
  ghost function DecodedSegment(s: Hints, src: Addr, dst: Addr, seg: Segment): seq<Observation> {
    var onPva := IsPvaTcp(s, seg.srcPort) || IsPvaTcp(s, seg.dstPort);
    if seg.payload == [] then []
    else if onPva || Pva.Probable(seg.payload) then
      DecodedPva(PvaMessages.Tcp, src, dst, seg.srcPort, seg.dstPort, seg.payload, if onPva then Confirmed else StrongHint)
    else if IsCaTcp(s, seg.srcPort) || IsCaTcp(s, seg.dstPort) then
      DecodedCa(s, Ca.Tcp, src, dst, seg.srcPort, seg.dstPort, seg.payload, Confirmed)
    else []
  }

  ghost function DecodedIpv4(s: Hints, ps: Parsers, payload: seq<byte>): seq<Observation> {
    match ParseIpv4(payload)
    case Err(_) => []
    case Ok(p) =>
      [Ipv4Seen(p)]
      + if p.payloadDrop then []
        else if p.protocol == PROTO_UDP then DecodedUdp(s, ps, p.src, p.dst, p.payload)
        else if p.protocol == PROTO_TCP then DecodedTcp(s, p.src, p.dst, p.payload)
        else []
  }

  function DecodedIpv6(ps: Parsers, payload: seq<byte>): seq<Observation> {
    match ps.ipv6(payload)
    case None => []
    case Some(p) =>
      [Ipv6Seen(p)] + if !p.payloadDrop && p.nextHeader == NEXT_ICMPV6 && ps.icmpv6(p.payload) then [Icmpv6Seen(p.payload)] else []
  }

  ghost function DecodedFrame(s: Hints, ps: Parsers, f: Frame): seq<Observation> {
    [FrameSeen(f)]
    + if f.etherType == ETHERTYPE_ARP then (if ps.arp(f.payload) then [ArpSeen(f.payload)] else [])
      else if f.etherType == ETHERTYPE_LLDP then (if ps.lldp(f.payload) then [LldpSeen(f.payload)] else [])
      else if f.etherType == ETHERTYPE_IPV4 then DecodedIpv4(s, ps, f.payload)
      else if f.etherType == ETHERTYPE_IPV6 then DecodedIpv6(ps, f.payload)
      else []
  }

  /** The observations of one packet; a packet of another link type or a broken frame has none. */
  ghost function Decoded(s: State, ps: Parsers, pkt: Packet): seq<Observation> {
    if pkt.linkType != LINK_TYPE_ETHERNET then []
    else
      match ParseEthernet(pkt.data)
      case Err(_) => []
      case Ok(f) => DecodedFrame(s.hints, ps, f)
  }

  ghost function After(s: State, ps: Parsers, pkt: Packet): State {
    var obs, st := Decoded(s, ps, pkt), s.stats.(packets := s.stats.packets + 1);
    s.(next := s.next + 1,
       stats := if pkt.linkType != LINK_TYPE_ETHERNET then st.(skipped := st.skipped + 1)
                else if ParseEthernet(pkt.data).Err? then st.(malformed := st.malformed + 1)
                else st.(decoded := st.decoded + 1),
       hints := s.hints.(caTcp := s.hints.caTcp + CaPorts(obs), pvaTcp := s.hints.pvaTcp + PvaPorts(obs)))
  }

  lemma {:induction false} PortsConcat(xs: seq<Observation>, ys: seq<Observation>)
    ensures CaPorts(xs + ys) == CaPorts(xs) + CaPorts(ys) && PvaPorts(xs + ys) == PvaPorts(xs) + PvaPorts(ys)
  {
    if xs == [] {
      assert xs + ys == ys;
    } else {
      assert (xs + ys)[1..] == xs[1..] + ys;
      PortsConcat(xs[1..], ys);
    }
  }

  lemma PortsSingle(o: Observation)
    ensures CaPorts([o]) == if o.CaSeen? then CaPort(o.ca) else {}
    ensures PvaPorts([o]) == if o.PvaSeen? then PvaPort(o.pva) else {}
  {
    assert [o][1..] == [];
  }

  /** One round of the loop over CA messages. */
  lemma CaNext(obs: seq<Observation>, msgs: seq<Ca.Message>, i: nat, t: Ca.Transport, src: Addr, dst: Addr, sp: u16, dp: u16,
               port: u16, c: Confidence, o: Ca.Observation)
    requires i < |msgs| && o == Ca.Interpret(msgs[i], t, src, dst, sp, dp, port)
    ensures obs + CaObservations(msgs[i..], t, src, dst, sp, dp, port, c)
         == obs + [CaSeen(o, c)] + CaObservations(msgs[i + 1..], t, src, dst, sp, dp, port, c)
    ensures CaPorts(obs + [CaSeen(o, c)]) == CaPorts(obs) + CaPort(o) && PvaPorts(obs + [CaSeen(o, c)]) == PvaPorts(obs)
  {
    assert msgs[i..][1..] == msgs[i + 1..];
    PortsSingle(CaSeen(o, c));
    PortsConcat(obs, [CaSeen(o, c)]);
  }

  lemma PvaNext(obs: seq<Observation>, msgs: seq<Pva.Message>, i: nat, t: PvaMessages.Transport, src: Addr, dst: Addr, sp: u16, dp: u16,
                c: Confidence, o: PvaMessages.Observation)
    requires i < |msgs| && o == PvaMessages.Interpreted(msgs[i], t, src, dst, sp, dp)
    ensures var seen := PvaSeen(o, if o.decoded.malformed then StrongHint else c);
            && obs + PvaObservations(msgs[i..], t, src, dst, sp, dp, c)
               == obs + [seen] + PvaObservations(msgs[i + 1..], t, src, dst, sp, dp, c)
            && PvaPorts(obs + [seen]) == PvaPorts(obs) + PvaPort(o) && CaPorts(obs + [seen]) == CaPorts(obs)
  {
    var seen := PvaSeen(o, if o.decoded.malformed then StrongHint else c);
    assert msgs[i..][1..] == msgs[i + 1..];
    PortsSingle(seen);
    PortsConcat(obs, [seen]);
  }

  // ---------------------------------------------------------------- the decoder object

  class Decoder {
    var next: nat
    var stats: Stats
    var ports: Ports
    var caTcp: set<u16>
    var pvaTcp: set<u16>

    ghost function Known(): Hints
      reads this
    {
      Hints(ports, caTcp, pvaTcp)
    }

    ghost function Now(): State
      reads this
    {
      State(next, stats, Known())
    }

    constructor ()
      ensures Now() == FRESH
    {
      next, stats, ports, caTcp, pvaTcp := 0, Stats(0, 0, 0, 0), DEFAULT_PORTS, {}, {};
    }

    method Decode(ps: Parsers, pkt: Packet) returns (obs: seq<Observation>)
      modifies this
      ensures obs == Decoded(old(Now()), ps, pkt)
      ensures Now() == After(old(Now()), ps, pkt)
    {
      next := next + 1;
      stats := stats.(packets := stats.packets + 1);
      if pkt.linkType != LINK_TYPE_ETHERNET {
        stats := stats.(skipped := stats.skipped + 1);
        return [];
      }
      var parsed := ParseEthernet(pkt.data);
      if parsed.Err? {
        stats := stats.(malformed := stats.malformed + 1);
        return [];
      }
      stats := stats.(decoded := stats.decoded + 1);
      obs := DecodePayload(ps, parsed.value);
    }

    method DecodePayload(ps: Parsers, f: Frame) returns (obs: seq<Observation>)
      modifies `caTcp, `pvaTcp
      ensures obs == DecodedFrame(old(Known()), ps, f)
      ensures caTcp == old(caTcp) + CaPorts(obs) && pvaTcp == old(pvaTcp) + PvaPorts(obs)
    {
      obs := [FrameSeen(f)];
      PortsSingle(FrameSeen(f));
      var rest: seq<Observation> := [];
      if f.etherType == ETHERTYPE_ARP {
        if ps.arp(f.payload) {
          rest := [ArpSeen(f.payload)];
          PortsSingle(ArpSeen(f.payload));
        }
      } else if f.etherType == ETHERTYPE_LLDP {
        if ps.lldp(f.payload) {
          rest := [LldpSeen(f.payload)];
          PortsSingle(LldpSeen(f.payload));
        }
      } else if f.etherType == ETHERTYPE_IPV4 {
        rest := DecodeIpv4(ps, f.payload);
      } else if f.etherType == ETHERTYPE_IPV6 {
        rest := DecodedIpv6(ps, f.payload);
        Ipv6AdvertisesNothing(ps, f.payload);
      }
      PortsConcat(obs, rest);
      obs := obs + rest;
    }

    method DecodeIpv4(ps: Parsers, payload: seq<byte>) returns (obs: seq<Observation>)
      modifies `caTcp, `pvaTcp
      ensures obs == DecodedIpv4(old(Known()), ps, payload)
      ensures caTcp == old(caTcp) + CaPorts(obs) && pvaTcp == old(pvaTcp) + PvaPorts(obs)
    {
      var parsed := ParseIpv4(payload);
      if parsed.Err? {
        return [];
      }
      var p := parsed.value;
      obs := [Ipv4Seen(p)];
      PortsSingle(Ipv4Seen(p));
      if p.payloadDrop {
        assert obs + [] == obs;
        return;
      }
      var rest: seq<Observation> := [];
      if p.protocol == PROTO_UDP {
        rest := DecodeUdp(ps, p.src, p.dst, p.payload);
      } else if p.protocol == PROTO_TCP {
        rest := DecodeTcp(p.src, p.dst, p.payload);
      }
      PortsConcat(obs, rest);
      obs := obs + rest;
    }

    method DecodeUdp(ps: Parsers, src: Addr, dst: Addr, payload: seq<byte>) returns (obs: seq<Observation>)
      modifies `caTcp, `pvaTcp
      ensures obs == DecodedUdp(old(Known()), ps, src, dst, payload)
      ensures caTcp == old(caTcp) + CaPorts(obs) && pvaTcp == old(pvaTcp) + PvaPorts(obs)
    {
      obs := [];
      var parsed := ParseUdp(payload);
      if parsed.Err? {
        return;
      }
      var d := parsed.value;
      if IsPort(d, DHCP_SERVER_PORT) || IsPort(d, DHCP_CLIENT_PORT) {
        if ps.dhcp(d.payload) {
          PortsSingle(DhcpSeen(d));
          return [DhcpSeen(d)];
        }
      } else if IsPort(d, ports.caServer) || IsPort(d, ports.caRepeater) {
        obs := DecodeCa(Ca.Udp, src, dst, d.srcPort, d.dstPort, d.payload, Confirmed);
      } else if IsPort(d, ports.pvaUdp) {
        obs := DecodePva(PvaMessages.Udp, src, dst, d.srcPort, d.dstPort, d.payload, Confirmed);
      } else if Pva.Probable(d.payload) {
        obs := DecodePva(PvaMessages.Udp, src, dst, d.srcPort, d.dstPort, d.payload, StrongHint);
      } else if |d.payload| >= Ca.HEADER_LEN && Ca.Probable(d.payload) {
        obs := DecodeCa(Ca.Udp, src, dst, d.srcPort, d.dstPort, d.payload, StrongHint);
      }
    }

    method DecodeTcp(src: Addr, dst: Addr, payload: seq<byte>) returns (obs: seq<Observation>)
      modifies `caTcp, `pvaTcp
      ensures obs == DecodedTcp(old(Known()), src, dst, payload)
      ensures caTcp == old(caTcp) + CaPorts(obs) && pvaTcp == old(pvaTcp) + PvaPorts(obs)
    {
      obs := [];
      var parsed := ParseTcp(payload);
      if parsed.Err? {
        return;
      }
      var seg := parsed.value;
      if IsStateEvent(seg.flags) {
        obs := [TcpSeen(seg)];
        PortsSingle(TcpSeen(seg));
      }
      var rest := DecodeSegment(src, dst, seg);
      PortsConcat(obs, rest);
      obs := obs + rest;
    }

    method DecodeSegment(src: Addr, dst: Addr, seg: Segment) returns (obs: seq<Observation>)
      modifies `caTcp, `pvaTcp
      ensures obs == DecodedSegment(old(Known()), src, dst, seg)
      ensures caTcp == old(caTcp) + CaPorts(obs) && pvaTcp == old(pvaTcp) + PvaPorts(obs)
    {
      obs := [];
      if |seg.payload| == 0 {
        return;
      }
      var known := Hints(ports, caTcp, pvaTcp);
      var onPva := IsPvaTcp(known, seg.srcPort) || IsPvaTcp(known, seg.dstPort);
      if onPva || Pva.Probable(seg.payload) {
        obs := DecodePva(PvaMessages.Tcp, src, dst, seg.srcPort, seg.dstPort, seg.payload, if onPva then Confirmed else StrongHint);
      } else if IsCaTcp(known, seg.srcPort) || IsCaTcp(known, seg.dstPort) {
        obs := DecodeCa(Ca.Tcp, src, dst, seg.srcPort, seg.dstPort, seg.payload, Confirmed);
      }
    }

    method DecodeCa(t: Ca.Transport, src: Addr, dst: Addr, sp: u16, dp: u16, payload: seq<byte>, conf: Confidence) returns (obs: seq<Observation>)
      modifies `caTcp
      ensures obs == DecodedCa(old(Known()), t, src, dst, sp, dp, payload, conf)
      ensures caTcp == old(caTcp) + CaPorts(obs) && PvaPorts(obs) == {}
    {
      var msgs, err := Ca.Parse(payload, t == Ca.Udp);
      obs := [];
      if |msgs| == 0 || (err.Some? && t == Ca.Udp) {
        return;
      }
      var c := if err.Some? then StrongHint else conf;
      assert msgs[0..] == msgs;
      for i := 0 to |msgs|
        invariant obs + CaObservations(msgs[i..], t, src, dst, sp, dp, ports.caServer, c)
               == CaObservations(msgs, t, src, dst, sp, dp, ports.caServer, c)
        invariant caTcp == old(caTcp) + CaPorts(obs) && PvaPorts(obs) == {}
      {
        var o := Ca.Interpret(msgs[i], t, src, dst, sp, dp, ports.caServer);
        CaNext(obs, msgs, i, t, src, dst, sp, dp, ports.caServer, c, o);
        caTcp := caTcp + CaPort(o);
        obs := obs + [CaSeen(o, c)];
      }
      assert obs + [] == obs;
    }

    method DecodePva(t: PvaMessages.Transport, src: Addr, dst: Addr, sp: u16, dp: u16, payload: seq<byte>, conf: Confidence) returns (obs: seq<Observation>)
      modifies `pvaTcp
      ensures obs == DecodedPva(t, src, dst, sp, dp, payload, conf)
      ensures pvaTcp == old(pvaTcp) + PvaPorts(obs) && CaPorts(obs) == {}
    {
      var msgs, err := Pva.Parse(payload);
      obs := [];
      if |msgs| == 0 || (err.Some? && t == PvaMessages.Udp) {
        return;
      }
      var c := if err.Some? then StrongHint else conf;
      assert msgs[0..] == msgs;
      for i := 0 to |msgs|
        invariant obs + PvaObservations(msgs[i..], t, src, dst, sp, dp, c) == PvaObservations(msgs, t, src, dst, sp, dp, c)
        invariant pvaTcp == old(pvaTcp) + PvaPorts(obs) && CaPorts(obs) == {}
      {
        var o := PvaMessages.Interpret(msgs[i], t, src, dst, sp, dp);
        PvaNext(obs, msgs, i, t, src, dst, sp, dp, c, o);
        pvaTcp := pvaTcp + PvaPort(o);
        obs := obs + [PvaSeen(o, if o.decoded.malformed then StrongHint else c)];
      }
      assert obs + [] == obs;
    }
  }

  lemma Ipv6AdvertisesNothing(ps: Parsers, payload: seq<byte>)
    ensures CaPorts(DecodedIpv6(ps, payload)) == {} && PvaPorts(DecodedIpv6(ps, payload)) == {}
  {
    var obs := DecodedIpv6(ps, payload);
    if obs != [] {
      var tail := obs[1..];
      PortsSingle(obs[0]);
      assert obs == [obs[0]] + tail;
      PortsConcat([obs[0]], tail);
      if tail != [] {
        PortsSingle(tail[0]);
        assert tail == [tail[0]];
      }
    }
  }

  // ---------------------------------------------------------------- whole runs

  /** The state after a sequence of packets, and everything it emitted. */
  ghost function Run(s: State, ps: Parsers, pkts: seq<Packet>): State
    decreases |pkts|
  {
    if pkts == [] then s else Run(After(s, ps, pkts[0]), ps, pkts[1..])
  }

  ghost function Emitted(s: State, ps: Parsers, pkts: seq<Packet>): seq<Observation>
    decreases |pkts|
  {
    if pkts == [] then [] else Decoded(s, ps, pkts[0]) + Emitted(After(s, ps, pkts[0]), ps, pkts[1..])
  }

  /**
    Over any run the packet number counts every packet, each packet is counted as exactly one of
    decoded, malformed and skipped, and the learned ports are exactly those that the emitted
    search responses and beacons advertised.
   */
  lemma {:induction false} RunLearnsWhatWasAdvertised(s: State, ps: Parsers, pkts: seq<Packet>)
    ensures var r, obs := Run(s, ps, pkts), Emitted(s, ps, pkts);
            && r.next == s.next + |pkts|
            && r.stats.packets == s.stats.packets + |pkts|
            && r.stats.decoded + r.stats.malformed + r.stats.skipped
               == s.stats.decoded + s.stats.malformed + s.stats.skipped + |pkts|
            && r.hints.ports == s.hints.ports
            && r.hints.caTcp == s.hints.caTcp + CaPorts(obs)
            && r.hints.pvaTcp == s.hints.pvaTcp + PvaPorts(obs)
    decreases |pkts|
  {
    if pkts == [] {
    } else {
      var s' := After(s, ps, pkts[0]);
      RunLearnsWhatWasAdvertised(s', ps, pkts[1..]);
      PortsConcat(Decoded(s, ps, pkts[0]), Emitted(s', ps, pkts[1..]));
    }
  }

  /** Too short for an Ethernet header, or for the tag it announces. */
  predicate ShortFrame(b: seq<byte>) {
    |b| < 14 || ((U16(b, 12) == 0x8100 || U16(b, 12) == 0x88a8) && |b| < 18)
  }

  /** The packets of other link types, and the Ethernet frames that are too short. */
  function OtherLinks(pkts: seq<Packet>): nat {
    if pkts == [] then 0 else (if pkts[0].linkType != LINK_TYPE_ETHERNET then 1 else 0) + OtherLinks(pkts[1..])
  }

  function ShortFrames(pkts: seq<Packet>): nat {
    if pkts == [] then 0
    else (if pkts[0].linkType == LINK_TYPE_ETHERNET && ShortFrame(pkts[0].data) then 1 else 0) + ShortFrames(pkts[1..])
  }

  /** Over any run the counters tell apart packets of other link types, frames that are too short, and all others. */
  lemma {:induction false} RunCountsEach(s: State, ps: Parsers, pkts: seq<Packet>)
    ensures var r := Run(s, ps, pkts);
            && r.stats.skipped == s.stats.skipped + OtherLinks(pkts)
            && r.stats.malformed == s.stats.malformed + ShortFrames(pkts)
            && r.stats.decoded == s.stats.decoded + |pkts| - OtherLinks(pkts) - ShortFrames(pkts)
    decreases |pkts|
  {
    if pkts == [] {
    } else {
      assert ParseEthernet(pkts[0].data).Err? <==> ShortFrame(pkts[0].data);
      RunCountsEach(After(s, ps, pkts[0]), ps, pkts[1..]);
    }
  }
}
