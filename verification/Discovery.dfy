/**
  From frames on the wire to what the user sees: which selection of cmd/wirepup/filters.go lets a built
  datagram through and shows it, and how a built search and the reply to it, decoded
  (internal/decode/decode.go) and folded in (internal/device/epics.go), end in the search tables.
 */
module Discovery {
  import opened Bytes
  import opened NetIp
  import opened Wrappers
  import opened Wire
  import opened Packets
  import opened Decode
  import opened Dispatch
  import opened Searches
  import opened Epics
  import opened Histories
  import B = Bpf
  import BpfCorrectness
  import Ca
  import Filters
  import Pva
  import PvaBuild
  import opened PvaReader

  /** The Channel Access messages among the observations of a packet. */
  function CaMessagesIn(obs: seq<Observation>, at: int, ref: nat): seq<CaMessage>
    decreases |obs|
  {
    if obs == [] then []
    else (if obs[0].CaSeen? then [CaMessageOf(obs[0].ca, at, ref)] else []) + CaMessagesIn(obs[1..], at, ref)
  }

  /** A frame with a datagram on ports where a Channel Access message is recognized. */
  predicate CarriesCa(data: seq<byte>, f: Frame, ip: Ipv4Fields, sp: u16, dp: u16, sum: u16, payload: seq<byte>, pad: seq<byte>, ports: Ports) {
    && CarriesUdp(data, f, ip, sp, dp, sum, payload, pad)
    && !OnDhcp(sp, dp) && (OnCa(ports, sp, dp) || !OnPort(sp, dp, ports.pvaUdp))
  }

  lemma NoMessagesFirst(obs: seq<Observation>, at: int, ref: nat)
    requires obs != [] && !obs[0].CaSeen?
    ensures CaMessagesIn(obs, at, ref) == CaMessagesIn(obs[1..], at, ref)
  {
  }

  lemma OneMessage(o: Observation, at: int, ref: nat)
    requires o.CaSeen?
    ensures CaMessagesIn([o], at, ref) == [CaMessageOf(o.ca, at, ref)]
  {
    assert [o][1..] == [];
  }

  lemma LastMessages(obs: seq<Observation>, at: int, ref: nat)
    requires |obs| >= 2 && obs[0].FrameSeen? && obs[1].Ipv4Seen?
    ensures |obs| == 3 && obs[2].CaSeen? ==> CaMessagesIn(obs, at, ref) == [CaMessageOf(obs[2].ca, at, ref)]
    ensures |obs| == 4 && obs[2].CaSeen? && obs[3].CaSeen? ==>
              CaMessagesIn(obs, at, ref) == [CaMessageOf(obs[2].ca, at, ref), CaMessageOf(obs[3].ca, at, ref)]
  {
    assert obs[1..][1..] == obs[2..];
    NoMessagesFirst(obs, at, ref);
    NoMessagesFirst(obs[1..], at, ref);
    if |obs| == 3 && obs[2].CaSeen? {
      assert obs[2..] == [obs[2]];
      OneMessage(obs[2], at, ref);
    } else if |obs| == 4 && obs[2].CaSeen? && obs[3].CaSeen? {
      assert obs[2..][1..] == [obs[3]];
      OneMessage(obs[3], at, ref);
    }
  }

  lemma FrameStarts(s: State, ps: Parsers, data: seq<byte>, f: Frame, ip: Ipv4Fields, protocol: byte, body: seq<byte>, pad: seq<byte>)
    requires CarriesIpv4(data, f, ip, protocol, body, pad)
    ensures var obs := Decoded(s, ps, Packet(LINK_TYPE_ETHERNET, data)); |obs| >= 2 && obs[0].FrameSeen? && obs[1].Ipv4Seen?
  {
    Ipv4FrameDecodes(s, ps, data, f, ip, protocol, body, pad);
  }

  /** The messages of a built search in a frame. */
  lemma SearchMessages(s: State, ps: Parsers, data: seq<byte>, f: Frame, ip: Ipv4Fields, sp: u16, dp: u16, sum: u16, pad: seq<byte>,
                       id: u32, pv: Name, replyWanted: bool, at: int, ref: nat)
    requires CarriesCa(data, f, ip, sp, dp, sum, Ca.SearchBytes(id, pv, replyWanted), pad, s.hints.ports)
    requires Ca.Printable(pv) && |pv| <= Ca.MAX_PV_NAME_LEN
    ensures CaMessagesIn(Decoded(s, ps, Packet(LINK_TYPE_ETHERNET, data)), at, ref) ==
              [CaOther(at, ref), CaSearch(V4(ip.src), id, pv, at, ref)]
  {
    BuiltCaSearchIsSeen(s, ps, data, f, ip, sp, dp, sum, pad, id, pv, replyWanted);
    FrameStarts(s, ps, data, f, ip, 17, UdpBytes(sp, dp, sum, Ca.SearchBytes(id, pv, replyWanted)), pad);
    LastMessages(Decoded(s, ps, Packet(LINK_TYPE_ETHERNET, data)), at, ref);
  }

  /** The message of a built reply in a frame. */
  lemma ReplyMessages(s: State, ps: Parsers, data: seq<byte>, f: Frame, ip: Ipv4Fields, sp: u16, dp: u16, sum: u16, pad: seq<byte>,
                      id: u32, port: u16, at: int, ref: nat)
    requires CarriesCa(data, f, ip, sp, dp, sum, Ca.SearchReplyBytes(id, port), pad, s.hints.ports)
    requires !(id == Ca.ANY_SENDER && (port == Ca.DO_REPLY || port == Ca.DONT_REPLY))
    ensures CaMessagesIn(Decoded(s, ps, Packet(LINK_TYPE_ETHERNET, data)), at, ref) ==
              [CaReply(true, V4(ip.src), port, V4(ip.src), V4(ip.dst), id, true, at, ref)]
  {
    BuiltCaReplyIsLearned(s, ps, data, f, ip, sp, dp, sum, pad, id, port);
    FrameStarts(s, ps, data, f, ip, 17, UdpBytes(sp, dp, sum, Ca.SearchReplyBytes(id, port)), pad);
    LastMessages(Decoded(s, ps, Packet(LINK_TYPE_ETHERNET, data)), at, ref);
  }

  lemma CaRunSingle(b: CaBook, m: CaMessage)
    ensures CaRun(b, [m]) == Searches.Run(b, CaOps(m))
    ensures CaRun(b, [CaOther(m.at, m.ref), m]) == Searches.Run(b, CaOps(m))
  {
    assert [m][1..] == [] && [CaOther(m.at, m.ref), m][1..] == [m];
    assert CaRun(b, [m]) == CaRun(Searches.Run(b, CaOps(m)), []);
    assert CaRun(b, [CaOther(m.at, m.ref), m]) == CaRun(b, [m]);
  }

  /**
    A host sends a search that wirepup builds and another answers it with a built reply: once both frames
    are decoded and folded in, the search holds the reply as its last response, and the server lists the
    name, whatever the tables held before.
   */
  lemma AnswerFoundOnTheWire(s: State, ps: Parsers, b: CaBook, id: u32, pv: Name, replyWanted: bool, port: u16,
                             asked: seq<byte>, f: Frame, client: Ipv4Fields, sp: u16, dp: u16, sum: u16, pad: seq<byte>, at: int, ref: nat,
                             told: seq<byte>, f': Frame, server: Ipv4Fields, sp': u16, dp': u16, sum': u16, pad': seq<byte>, at': int, ref': nat)
    requires Sane(b) && pv != [] && Ca.Printable(pv) && |pv| <= Ca.MAX_PV_NAME_LEN
    requires CarriesCa(asked, f, client, sp, dp, sum, Ca.SearchBytes(id, pv, replyWanted), pad, s.hints.ports)
    requires CarriesCa(told, f', server, sp', dp', sum', Ca.SearchReplyBytes(id, port), pad', s.hints.ports) && server.dst == client.src
    requires !(id == Ca.ANY_SENDER && (port == Ca.DO_REPLY || port == Ca.DONT_REPLY))
    ensures var pkt, pkt' := Packet(LINK_TYPE_ETHERNET, asked), Packet(LINK_TYPE_ETHERNET, told);
            var key: CaKey := (V4(client.src), id);
            var b1 := CaRun(b, CaMessagesIn(Decoded(s, ps, pkt), at, ref));
            var b2 := CaRun(b1, CaMessagesIn(Decoded(After(s, ps, pkt), ps, pkt'), at', ref'));
            var search := SeenAgain(SearchAt(b.searches, key), key, pv, at);
            && SearchAt(b1.searches, key) == Some(search)
            && SearchAt(b2.searches, key) ==
                 Some(search.(responses := search.responses + [Response((V4(server.src), port), at', ref')]))
            && Lists(b2.servers, (V4(server.src), port), search.pv)
            && (SearchAt(b.searches, key).None? ==> search.pv == pv)
  {
    var key: CaKey := (V4(client.src), id);
    var ask := CaSearch(V4(client.src), id, pv, at, ref);
    var tell := CaReply(true, V4(server.src), port, V4(server.src), V4(server.dst), id, true, at', ref');
    SearchMessages(s, ps, asked, f, client, sp, dp, sum, pad, id, pv, replyWanted, at, ref);
    ReplyMessages(After(s, ps, Packet(LINK_TYPE_ETHERNET, asked)), ps, told, f', server, sp', dp', sum', pad', id, port, at', ref');
    CaRunSingle(b, ask);
    CaKeepsSane(b, ask);
    CaStepSearch(b, ask, V4(client.src), id);
    var b1 := Searches.Run(b, CaOps(ask));
    CaRunSingle(b1, tell);
    CaReplyReachesSearch(b1, tell, V4(client.src), id);
  }

  /** The message of a built Channel Access beacon in a frame. */
  lemma BeaconMessages(s: State, ps: Parsers, data: seq<byte>, f: Frame, ip: Ipv4Fields, sp: u16, dp: u16, sum: u16, pad: seq<byte>,
                       port: u16, id: u32, server: Addr, at: int, ref: nat)
    requires !server.Unmap().V6? && port != 0
    requires CarriesCa(data, f, ip, sp, dp, sum, Ca.BeaconBytes(port, id, server), pad, s.hints.ports)
    ensures CaMessagesIn(Decoded(s, ps, Packet(LINK_TYPE_ETHERNET, data)), at, ref) ==
              [CaBeacon(Ca.BeaconServer(server, V4(ip.src)), port, V4(ip.src), at, ref)]
  {
    BuiltCaBeaconIsLearned(s, ps, data, f, ip, sp, dp, sum, pad, port, id, server);
    FrameStarts(s, ps, data, f, ip, 17, UdpBytes(sp, dp, sum, Ca.BeaconBytes(port, id, server)), pad);
    LastMessages(Decoded(s, ps, Packet(LINK_TYPE_ETHERNET, data)), at, ref);
  }

  /** A not-found message names its sender and the id it could not find. */
  lemma NotFoundTells(m: Ca.Message, t: Ca.Transport, src: Addr, dst: Addr, sp: u16, dp: u16, port: u16, at: int, ref: nat)
    requires m.h.command == 14
    ensures CaMessageOf(Ca.Interpret(m, t, src, dst, sp, dp, port), at, ref) ==
              CaReply(false, src, 0, src, dst, m.h.available, t.Udp?, at, ref)
  {
  }

  // ---------------------------------------------------------------- a PVAccess search and its answer

  function PvaMessagesIn(obs: seq<Observation>, at: int, ref: nat): seq<PvaMessage>
    decreases |obs|
  {
    if obs == [] then []
    else (if obs[0].PvaSeen? then [PvaMessageOf(obs[0].pva, at, ref)] else []) + PvaMessagesIn(obs[1..], at, ref)
  }

  /** A frame with a datagram on ports where a PVAccess message is recognized. */
  predicate CarriesPva(data: seq<byte>, f: Frame, ip: Ipv4Fields, sp: u16, dp: u16, sum: u16, payload: seq<byte>, pad: seq<byte>, ports: Ports) {
    CarriesUdp(data, f, ip, sp, dp, sum, payload, pad) && !OnDhcp(sp, dp) && !OnCa(ports, sp, dp)
  }

  lemma NoPvaFirst(obs: seq<Observation>, at: int, ref: nat)
    requires obs != [] && !obs[0].PvaSeen?
    ensures PvaMessagesIn(obs, at, ref) == PvaMessagesIn(obs[1..], at, ref)
  {
  }

  lemma LastPva(obs: seq<Observation>, at: int, ref: nat)
    requires |obs| == 3 && obs[0].FrameSeen? && obs[1].Ipv4Seen? && obs[2].PvaSeen?
    ensures PvaMessagesIn(obs, at, ref) == [PvaMessageOf(obs[2].pva, at, ref)]
  {
    NoPvaFirst(obs, at, ref);
    NoPvaFirst(obs[1..], at, ref);
    var last := obs[2..];
    assert obs[1..][1..] == last && last == [obs[2]] && last[1..] == [];
  }

  lemma PvaSearchMessages(s: State, ps: Parsers, data: seq<byte>, f: Frame, ip: Ipv4Fields, sp: u16, dp: u16, sum: u16, pad: seq<byte>,
                          id: i32, channel: i32, name: Name, replyRequired: bool, unicast: bool, port: u16, at: int, ref: nat)
    requires CarriesPva(data, f, ip, sp, dp, sum,
                        PvaBuild.FrameBytes(Pva.CMD_SEARCH, false, PvaBuild.SearchPayload(id, channel, name, replyRequired, unicast, port)), pad,
                        s.hints.ports)
    requires |name| <= Pva.MAX_CHANNEL_NAME
    ensures PvaMessagesIn(Decoded(s, ps, Packet(LINK_TYPE_ETHERNET, data)), at, ref) ==
              [PvaSearch(V4(ip.src), id, [Channel(channel, name)], at, ref)]
  {
    BuiltPvaSearchIsSeen(s, ps, data, f, ip, sp, dp, sum, pad, id, channel, name, replyRequired, unicast, port);
    FrameStarts(s, ps, data, f, ip, 17, UdpBytes(sp, dp, sum,
      PvaBuild.FrameBytes(Pva.CMD_SEARCH, false, PvaBuild.SearchPayload(id, channel, name, replyRequired, unicast, port))), pad);
    LastPva(Decoded(s, ps, Packet(LINK_TYPE_ETHERNET, data)), at, ref);
  }

  lemma PvaResponseMessages(s: State, ps: Parsers, data: seq<byte>, f: Frame, ip: Ipv4Fields, sp: u16, dp: u16, sum: u16, pad: seq<byte>,
                            guid: Guid, id: i32, server: Addr, port: u16, found: bool, ids: seq<i32>, at: int, ref: nat)
    requires |guid| == Pva.GUID_LEN
    requires CarriesPva(data, f, ip, sp, dp, sum,
                        PvaBuild.FrameBytes(Pva.CMD_SEARCH_RESPONSE, true, PvaBuild.ResponsePayload(guid, id, server, port, found, ids)), pad,
                        s.hints.ports)
    ensures PvaMessagesIn(Decoded(s, ps, Packet(LINK_TYPE_ETHERNET, data)), at, ref) ==
              [PvaReply(found, guid, V4(ip.src), V4(ip.dst), id, ids, true, at, ref)]
  {
    BuiltPvaResponseIsLearned(s, ps, data, f, ip, sp, dp, sum, pad, guid, id, server, port, found, ids);
    FrameStarts(s, ps, data, f, ip, 17, UdpBytes(sp, dp, sum,
      PvaBuild.FrameBytes(Pva.CMD_SEARCH_RESPONSE, true, PvaBuild.ResponsePayload(guid, id, server, port, found, ids))), pad);
    LastPva(Decoded(s, ps, Packet(LINK_TYPE_ETHERNET, data)), at, ref);
  }

  /** The message of a built PVAccess beacon in a frame. */
  lemma PvaBeaconMessages(s: State, ps: Parsers, data: seq<byte>, f: Frame, ip: Ipv4Fields, sp: u16, dp: u16, sum: u16, pad: seq<byte>,
                          guid: Guid, beaconSeq: byte, change: u16, server: Addr, port: u16, at: int, ref: nat)
    requires |guid| == Pva.GUID_LEN
    requires CarriesPva(data, f, ip, sp, dp, sum,
                        PvaBuild.FrameBytes(Pva.CMD_BEACON, true, PvaBuild.BeaconPayload(guid, beaconSeq, change, server, port)), pad,
                        s.hints.ports)
    ensures PvaMessagesIn(Decoded(s, ps, Packet(LINK_TYPE_ETHERNET, data)), at, ref) == [PvaBeacon(guid, V4(ip.src), at, ref)]
  {
    BuiltPvaBeaconIsLearned(s, ps, data, f, ip, sp, dp, sum, pad, guid, beaconSeq, change, server, port);
    FrameStarts(s, ps, data, f, ip, 17, UdpBytes(sp, dp, sum,
      PvaBuild.FrameBytes(Pva.CMD_BEACON, true, PvaBuild.BeaconPayload(guid, beaconSeq, change, server, port))), pad);
    LastPva(Decoded(s, ps, Packet(LINK_TYPE_ETHERNET, data)), at, ref);
  }

  lemma PvaRunSingle(b: PvaBook, m: PvaMessage)
    ensures PvaRun(b, [m]) == Searches.Run(b, PvaOps(m))
  {
    assert [m][1..] == [];
    assert PvaRun(b, [m]) == PvaRun(Searches.Run(b, PvaOps(m)), []);
  }

  /** A search for one named channel is live afterwards. */
  lemma OneChannelSought(b: PvaBook, src: Addr, id: i32, channel: i32, name: Name, at: int, ref: nat)
    requires Sane(b) && name != []
    ensures var m := PvaSearch(src, id, [Channel(channel, name)], at, ref);
            var key: PvaKey := (src, id, channel);
            && Sane(Searches.Run(b, PvaOps(m)))
            && SearchAt(Searches.Run(b, PvaOps(m)).searches, key) == Some(SeenAgain(SearchAt(b.searches, key), key, name, at))
  {
    var m := PvaSearch(src, id, [Channel(channel, name)], at, ref);
    PvaChannelSought(b, m, 0, (src, id, channel));
    assert m.channels[..0] == [] && m.channels[..1] == m.channels;
    RunKeepsFifo(b, PvaOps(m));
    SeeksKeepServers(b, src, id, m.channels, at);
  }

  /**
    The same for PVAccess: once a built search and a built response to it are decoded and folded in, the
    search holds the response once for each time the response lists its id, and if it was found the
    server's GUID lists the name.
   */
  lemma PvaAnswerFoundOnTheWire(s: State, ps: Parsers, b: PvaBook, id: i32, channel: i32, name: Name, replyRequired: bool, unicast: bool,
                                reply: u16, guid: Guid, server: Addr, port: u16, found: bool, ids: seq<i32>,
                                asked: seq<byte>, f: Frame, client: Ipv4Fields, sp: u16, dp: u16, sum: u16, pad: seq<byte>, at: int, ref: nat,
                                told: seq<byte>, f': Frame, host: Ipv4Fields, sp': u16, dp': u16, sum': u16, pad': seq<byte>, at': int, ref': nat)
    requires Sane(b) && name != [] && |name| <= Pva.MAX_CHANNEL_NAME && |guid| == Pva.GUID_LEN
    requires CarriesPva(asked, f, client, sp, dp, sum,
                        PvaBuild.FrameBytes(Pva.CMD_SEARCH, false, PvaBuild.SearchPayload(id, channel, name, replyRequired, unicast, reply)), pad,
                        s.hints.ports)
    requires CarriesPva(told, f', host, sp', dp', sum',
                        PvaBuild.FrameBytes(Pva.CMD_SEARCH_RESPONSE, true, PvaBuild.ResponsePayload(guid, id, server, port, found, ids)), pad',
                        s.hints.ports)
    requires host.dst == client.src
    ensures var pkt, pkt' := Packet(LINK_TYPE_ETHERNET, asked), Packet(LINK_TYPE_ETHERNET, told);
            var key: PvaKey := (V4(client.src), id, channel);
            var b1 := PvaRun(b, PvaMessagesIn(Decoded(s, ps, pkt), at, ref));
            var b2 := PvaRun(b1, PvaMessagesIn(Decoded(After(s, ps, pkt), ps, pkt'), at', ref'));
            var search := SeenAgain(SearchAt(b.searches, key), key, name, at);
            && SearchAt(b1.searches, key) == Some(search)
            && SearchAt(b2.searches, key) == HeardTimes(Some(search), found, Response(guid, at', ref'), Occurs(ids, channel))
            && (found && channel in ids ==> Lists(b2.servers, guid, search.pv))
  {
    var key: PvaKey := (V4(client.src), id, channel);
    var ask := PvaSearch(V4(client.src), id, [Channel(channel, name)], at, ref);
    var tell := PvaReply(found, guid, V4(host.src), V4(host.dst), id, ids, true, at', ref');
    PvaSearchMessages(s, ps, asked, f, client, sp, dp, sum, pad, id, channel, name, replyRequired, unicast, reply, at, ref);
    PvaResponseMessages(After(s, ps, Packet(LINK_TYPE_ETHERNET, asked)), ps, told, f', host, sp', dp', sum', pad',
                        guid, id, server, port, found, ids, at', ref');
    PvaRunSingle(b, ask);
    OneChannelSought(b, V4(client.src), id, channel, name, at, ref);
    var b1 := Searches.Run(b, PvaOps(ask));
    PvaRunSingle(b1, tell);
    PvaTold(b1, tell, key);
  }

  lemma PvaTold(b: PvaBook, m: PvaMessage, key: PvaKey)
    requires Sane(b) && m.PvaReply? && m.dst == key.0 && m.sequence == key.1 && SearchAt(b.searches, key).Some?
    ensures var next := Searches.Run(b, PvaOps(m));
            && SearchAt(next.searches, key) == HeardTimes(SearchAt(b.searches, key), m.found, Response(m.guid, m.at, m.ref), Occurs(m.ids, key.2))
            && (m.found && key.2 in m.ids ==> Lists(next.servers, m.guid, SearchAt(b.searches, key).value.pv))
  {
    var pv := SearchAt(b.searches, key).value.pv;
    PvaReplyReaches(b, m, key);
    PvaReplyNames(b, m, m.guid, pv);
    if key.2 in m.ids {
      var k :| 0 <= k < |m.ids| && m.ids[k] == key.2;
      assert Seeking(b, (m.dst, m.sequence, m.ids[k]), pv);
    }
  }

  // ---------------------------------------------------------------- what a selection shows

  /** What the displays of a selected protocol stand for. */
  predicate Displayed(name: Filters.Name, o: Observation) {
    match name
    case Frames => o.FrameSeen?
    case Arp => o.ArpSeen?
    case Lldp => o.LldpSeen?
    case Ipv4 => o.Ipv4Seen?
    case Dhcp => o.DhcpSeen?
    case Ipv6 => o.Ipv6Seen?
    case Ndp => o.Icmpv6Seen?
    case Tcp => o.TcpSeen?
    case EpicsCa => o.CaSeen?
    case EpicsPva => o.PvaSeen?
    case Unrecognized(_) => false
  }

  /** A selection shows a packet exactly when one of its observations is of one of the selected protocols. */
  lemma {:induction false} SelectionShows(names: seq<Filters.Name>, obs: seq<Observation>)
    ensures Filters.Shown(obs, Some(Filters.DisplaysOf(names))) <==> exists n, o :: n in names && o in obs && Displayed(n, o)
  {
    if names == [] {
    } else {
      SelectionShows(names[1..], obs);
      OneNameShows(names[0], obs);
      assert forall n :: n in names <==> n == names[0] || n in names[1..];
      assert Filters.DisplaysOf(names) == OwnDisplays(names[0]) + Filters.DisplaysOf(names[1..]);
      assert Filters.Shown(obs, Some(Filters.DisplaysOf(names))) <==>
             Filters.Shown(obs, Some(OwnDisplays(names[0]))) || Filters.Shown(obs, Some(Filters.DisplaysOf(names[1..])));
    }
  }

  function OwnDisplays(name: Filters.Name): set<Filters.Protocol> {
    if Filters.Known(name) then Filters.FilterOf(name).value.displays else {}
  }

  lemma OneNameShows(name: Filters.Name, obs: seq<Observation>)
    ensures Filters.Shown(obs, Some(OwnDisplays(name))) <==> exists o :: o in obs && Displayed(name, o)
  {
    forall o ensures Filters.ProtocolOf(o) in OwnDisplays(name) <==> Displayed(name, o) {
    }
  }

  /** An ICMPv6 observation comes from an IPv6 frame. */
  lemma Icmpv6FromIpv6(s: Hints, ps: Parsers, f: Frame, o: Observation)
    requires o in DecodedFrame(s, ps, f) && o.Icmpv6Seen?
    ensures f.etherType == ETHERTYPE_IPV6 && o in DecodedIpv6(ps, f.payload)
  {
    if f.etherType == ETHERTYPE_IPV4 {
      assert o in DecodedIpv4(s, ps, f.payload);
      Filters.Ipv4Observations(s, ps, f.payload, o);
    }
  }

  /** An NDP selection shows exactly the frames whose IPv6 walk ends at an ICMPv6 message that parses. */
  lemma NdpShown(s: Hints, ps: Parsers, f: Frame)
    ensures Filters.Shown(DecodedFrame(s, ps, f), Some(OwnDisplays(Filters.Ndp))) <==>
              && f.etherType == ETHERTYPE_IPV6 && ps.ipv6(f.payload).Some?
              && var p := ps.ipv6(f.payload).value; !p.payloadDrop && p.nextHeader == 58 && ps.icmpv6(p.payload)
  {
    var obs, rest := DecodedFrame(s, ps, f), DecodedIpv6(ps, f.payload);
    OneNameShows(Filters.Ndp, obs);
    forall o | o in obs && o.Icmpv6Seen? ensures f.etherType == ETHERTYPE_IPV6 && o in rest {
      Icmpv6FromIpv6(s, ps, f, o);
    }
    if f.etherType == ETHERTYPE_IPV6 && |rest| == 2 {
      assert obs == [FrameSeen(f)] + rest;
      assert obs[2] == rest[1] && obs[2] in obs;
    }
  }

  /** The selections of the link layer and of IP show exactly the frames of their type that the parser of the protocol accepts. */
  lemma FrameShown(name: Filters.Name, s: Hints, ps: Parsers, f: Frame)
    requires name.Frames? || name.Arp? || name.Lldp? || name.Ipv4? || name.Ipv6?
    ensures Filters.Shown(DecodedFrame(s, ps, f), Some(OwnDisplays(name))) <==>
              match name
              case Arp => f.etherType == 0x0806 && ps.arp(f.payload)
              case Lldp => f.etherType == 0x88cc && ps.lldp(f.payload)
              case Ipv4 => f.etherType == 0x0800 && ParseIpv4(f.payload).Ok?
              case Ipv6 => f.etherType == 0x86dd && ps.ipv6(f.payload).Some?
              case _ => true
  {
    var obs := DecodedFrame(s, ps, f);
    OneNameShows(name, obs);
    assert obs[0] == FrameSeen(f) && obs[0] in obs;
    assert |obs| > 1 ==> obs[1] in obs;
    forall o | o in obs && Displayed(name, o) && !o.FrameSeen? ensures |obs| > 1 && Displayed(name, obs[1]) {
      Filters.ProtocolOfFrame(s, ps, f, o);
      if f.etherType == ETHERTYPE_IPV4 {
        assert o in DecodedIpv4(s, ps, f.payload);
        Filters.Ipv4Observations(s, ps, f.payload, o);
      }
    }
  }

  // ---------------------------------------------------------------- what a selection lets through

  lemma UntaggedPayload(data: seq<byte>, f: Frame)
    requires ValidFrame(f) && f.vlan.None? && data == EthernetBytes(f)
    ensures |data| == 14 + |f.payload| && data[14..14 + |f.payload|] == f.payload && U16(data, 12) == f.etherType
  {
    assert data == f.destination + f.source + Put16(f.etherType) + f.payload;
    assert data[12..14] == Put16(f.etherType);
    U16Within(data, 12, f.etherType);
  }

  /** The ports of a datagram inside a longer buffer. */
  lemma PortsInside(data: seq<byte>, h: nat, sp: u16, dp: u16, sum: u16, payload: seq<byte>)
    requires 8 + |payload| < 0x1_0000
    requires var body := UdpBytes(sp, dp, sum, payload); h + |body| <= |data| && data[h..h + |body|] == body
    ensures U16(data, h) == sp && U16(data, h + 2) == dp
  {
    var body := UdpBytes(sp, dp, sum, payload);
    UdpHeaderFields(sp, dp, UDP_HEADER_LEN + |payload|, sum, payload);
    assert body[0] == data[h] && body[1] == data[h + 1] && body[2] == data[h + 2] && body[3] == data[h + 3];
  }

  /** Where the filter finds the fields of an untagged datagram. */
  lemma UdpFrameFields(data: seq<byte>, f: Frame, ip: Ipv4Fields, sp: u16, dp: u16, sum: u16, payload: seq<byte>, pad: seq<byte>)
    requires CarriesUdp(data, f, ip, sp, dp, sum, payload, pad) && f.vlan.None?
    ensures |data| >= 34 && U16(data, 12) == ETHERTYPE_IPV4 && data[23] == PROTO_UDP && U16(data, 20) % 0x2000 == 0
    ensures var h := 14 + 4 * (data[14] % 16); h + 4 <= |data| && U16(data, h) == sp && U16(data, h + 2) == dp
  {
    UntaggedPayload(data, f);
    Ipv4Parses(ip, 17, UdpBytes(sp, dp, sum, payload), pad);
    Filters.Ipv4Fields(data, |f.payload|);
    Filters.Ipv4PayloadPlace(data, |f.payload|);
    PortsInside(data, 14 + 4 * (data[14] % 16), sp, dp, sum, payload);
  }

  /** Whether a selection is for datagrams on these ports. */
  predicate ListensOn(name: Filters.Name, sp: u16, dp: u16) {
    match name
    case Ipv4 => true
    case Dhcp => OnPort(sp, dp, 67) || OnPort(sp, dp, 68)
    case EpicsCa => OnPort(sp, dp, 5064) || OnPort(sp, dp, 5065)
    case EpicsPva => OnPort(sp, dp, 5076)
    case _ => false
  }

  /** The selection of one protocol has a program, and it accepts the frame. */
  predicate Accepts(name: Filters.Name, data: seq<byte>) {
    var selection := Filters.Selected([name]);
    selection.Kernel? && B.Verdict(selection.prog, data) == B.Halted(B.ACCEPT_LENGTH)
  }

  /** Where no rule of a protocol faults, its program accepts the frame exactly when one of them matches. */
  lemma AcceptsIffMatch(name: Filters.Name, data: seq<byte>)
    requires name in Filters.KERNEL_NAMES && !BpfCorrectness.AnyOutcome(Filters.FilterOf(name).value.rules, data, B.Fault)
    ensures Accepts(name, data) <==> BpfCorrectness.AnyOutcome(Filters.FilterOf(name).value.rules, data, B.Match)
  {
    Filters.FilterSize(name);
    Filters.SelectsOne(name);
    BpfCorrectness.FaultFreeVerdict(Filters.FilterOf(name).value.rules, data);
  }

  /** The outcomes of one rule stand for those of a list of up to three. */
  lemma ThreeRules(rules: seq<B.Rule>, data: seq<byte>, o: B.Outcome)
    requires 1 <= |rules| <= 3
    ensures BpfCorrectness.AnyOutcome(rules, data, o) <==>
              || B.RuleMeaning(rules[0], data) == o
              || (|rules| > 1 && B.RuleMeaning(rules[1], data) == o)
              || (|rules| > 2 && B.RuleMeaning(rules[2], data) == o)
  {
    assert forall r :: r in rules <==> r == rules[0] || (|rules| > 1 && r == rules[1]) || (|rules| > 2 && r == rules[2]);
  }

  /** On a datagram with these ports no rule of a protocol faults, and one matches if the selection is for them. */
  lemma UdpRulesDecide(name: Filters.Name, data: seq<byte>, sp: u16, dp: u16)
    requires name in Filters.KERNEL_NAMES
    requires |data| >= 34 && U16(data, 12) == ETHERTYPE_IPV4 && data[23] == PROTO_UDP && U16(data, 20) % 0x2000 == 0
    requires var h := 14 + 4 * (data[14] % 16); h + 4 <= |data| && U16(data, h) == sp && U16(data, h + 2) == dp
    ensures Filters.Known(name)
    ensures var rules := Filters.FilterOf(name).value.rules;
            && !BpfCorrectness.AnyOutcome(rules, data, B.Fault)
            && (BpfCorrectness.AnyOutcome(rules, data, B.Match) <==> ListensOn(name, sp, dp))
  {
    Filters.FilterSize(name);
    var rules := Filters.FilterOf(name).value.rules;
    forall port: u16 | port != 0 ensures B.RuleMeaning(Filters.UdpRule(port), data) == B.Bool(OnPort(sp, dp, port)) {
      Filters.UdpRuleMeaning(data, port);
    }
    assert B.RuleMeaning(Filters.TCP_RULE, data) == B.NoMatch;
    ThreeRules(rules, data, B.Fault);
    ThreeRules(rules, data, B.Match);
  }

  /** An untagged datagram passes the program of a protocol exactly when it is IPv4's or listens on its ports. */
  lemma UdpAcceptedIff(name: Filters.Name, data: seq<byte>, f: Frame, ip: Ipv4Fields, sp: u16, dp: u16, sum: u16, payload: seq<byte>, pad: seq<byte>)
    requires name in Filters.KERNEL_NAMES && CarriesUdp(data, f, ip, sp, dp, sum, payload, pad) && f.vlan.None?
    ensures Accepts(name, data) <==> ListensOn(name, sp, dp)
  {
    UdpFrameFields(data, f, ip, sp, dp, sum, payload, pad);
    UdpRulesDecide(name, data, sp, dp);
    AcceptsIffMatch(name, data);
  }

  /** An untagged segment passes exactly the programs of IPv4, TCP, Channel Access and PVAccess, on any port: servers choose theirs. */
  lemma TcpAcceptedIff(name: Filters.Name, data: seq<byte>, f: Frame, ip: Ipv4Fields, t: TcpFields, payload: seq<byte>, pad: seq<byte>)
    requires name in Filters.KERNEL_NAMES && CarriesTcp(data, f, ip, t, payload, pad) && f.vlan.None?
    ensures Accepts(name, data) <==> name.Ipv4? || name.Tcp? || name.EpicsCa? || name.EpicsPva?
  {
    UntaggedPayload(data, f);
    Ipv4Parses(ip, 6, TcpBytes(t, payload), pad);
    Filters.Ipv4Fields(data, |f.payload|);
    Filters.FilterSize(name);
    assert B.RuleMeaning(Filters.TCP_RULE, data) == B.Match;
    forall port: u16 | port != 0 ensures B.RuleMeaning(Filters.UdpRule(port), data) == B.NoMatch {
    }
    ThreeRules(Filters.FilterOf(name).value.rules, data, B.Fault);
    ThreeRules(Filters.FilterOf(name).value.rules, data, B.Match);
    AcceptsIffMatch(name, data);
  }

  /** The program for ndp accepts exactly the frames with the IPv6 type whose first next-header field says ICMPv6. */
  lemma NdpAcceptedIff(data: seq<byte>)
    ensures Accepts(Filters.Ndp, data) <==> |data| > 20 && U16(data, 12) == 0x86dd && data[20] == 58
  {
    var rule := B.Rule(ETHERTYPE_IPV6, 58, 0);
    var rules := [rule];
    Filters.FilterSize(Filters.Ndp);
    Filters.SelectsOne(Filters.Ndp);
    BpfCorrectness.AssembledVerdict(rules, data);
    assert rules[1..] == [];
    assert B.RulesMeaning(rules, data) == B.Either(B.RuleMeaning(rule, data), B.NoMatch);
    assert B.RuleMeaning(rule, data) == B.Ipv6Meaning(rule, data);
  }

  /** A built PVAccess beacon is shown under the PVAccess selection, and passes its program on the PVAccess port only. */
  lemma BuiltPvaBeaconIsShown(s: State, ps: Parsers, data: seq<byte>, f: Frame, ip: Ipv4Fields, sp: u16, dp: u16, sum: u16, pad: seq<byte>,
                              guid: seq<byte>, beaconSeq: byte, change: u16, server: Addr, port: u16)
    requires |guid| == Pva.GUID_LEN && f.vlan.None? && !OnDhcp(sp, dp) && !OnCa(s.hints.ports, sp, dp)
    requires CarriesUdp(data, f, ip, sp, dp, sum,
                        PvaBuild.FrameBytes(Pva.CMD_BEACON, true, PvaBuild.BeaconPayload(guid, beaconSeq, change, server, port)), pad)
    ensures Filters.Shown(Decoded(s, ps, Packet(LINK_TYPE_ETHERNET, data)), Some(OwnDisplays(Filters.EpicsPva)))
    ensures Accepts(Filters.EpicsPva, data) <==> OnPort(sp, dp, 5076)
  {
    var obs := Decoded(s, ps, Packet(LINK_TYPE_ETHERNET, data));
    BuiltPvaBeaconIsLearned(s, ps, data, f, ip, sp, dp, sum, pad, guid, beaconSeq, change, server, port);
    OneNameShows(Filters.EpicsPva, obs);
    assert obs[2] in obs;
    UdpAcceptedIff(Filters.EpicsPva, data, f, ip, sp, dp, sum,
                   PvaBuild.FrameBytes(Pva.CMD_BEACON, true, PvaBuild.BeaconPayload(guid, beaconSeq, change, server, port)), pad);
  }
}
