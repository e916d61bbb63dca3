/**
  The kernel filter in front of the decoder (cmd/wirepup/filters.go): a protocol selection becomes
  a BPF program and a set of displayed protocols.
 */
module Filters {
  import opened Bytes
  import opened NetIp
  import opened Wrappers
  import opened Wire
  import opened Decode
  import B = Bpf
  import BpfCorrectness
  import BpfLinking
  import Ca
  import Pva
  import PvaMessages

  /** The names a --protocol flag can hold; any other text is Unrecognized. */
  datatype Name = Frames | Arp | Lldp | Ipv4 | Dhcp | Ipv6 | Ndp | Tcp | EpicsCa | EpicsPva | Unrecognized(text: string)

  /** The protocol of an observation, as its evidence names it. */
  datatype Protocol = PEthernet | PArp | PLldp | PIpv4 | PIpv6 | PIcmpv6 | PDhcp | PTcp | PCa | PPva

  datatype ProtocolFilter = ProtocolFilter(rules: seq<B.Rule>, displays: set<Protocol>)

  const KERNEL_NAMES: set<Name> := {Arp, Lldp, Ipv4, Dhcp, Ipv6, Ndp, Tcp, EpicsCa, EpicsPva}

  function UdpRule(port: u16): B.Rule {
    B.Rule(ETHERTYPE_IPV4, PROTO_UDP, port)
  }

  const TCP_RULE := B.Rule(ETHERTYPE_IPV4, PROTO_TCP, 0)

  /** The table of selectable protocols. */
  function FilterOf(name: Name): Option<ProtocolFilter> {
    match name
    case Frames => Some(ProtocolFilter([], {PEthernet}))
    case Arp => Some(ProtocolFilter([B.Rule(ETHERTYPE_ARP, 0, 0)], {PArp}))
    case Lldp => Some(ProtocolFilter([B.Rule(ETHERTYPE_LLDP, 0, 0)], {PLldp}))
    case Ipv4 => Some(ProtocolFilter([B.Rule(ETHERTYPE_IPV4, 0, 0)], {PIpv4}))
    case Dhcp => Some(ProtocolFilter([UdpRule(DHCP_SERVER_PORT), UdpRule(DHCP_CLIENT_PORT)], {PDhcp}))
    case Ipv6 => Some(ProtocolFilter([B.Rule(ETHERTYPE_IPV6, 0, 0)], {PIpv6}))
    case Ndp => Some(ProtocolFilter([B.Rule(ETHERTYPE_IPV6, NEXT_ICMPV6, 0)], {PIcmpv6}))
    case Tcp => Some(ProtocolFilter([TCP_RULE], {PTcp}))
    case EpicsCa => Some(ProtocolFilter([UdpRule(Ca.DEFAULT_SERVER_PORT), UdpRule(Ca.DEFAULT_REPEATER_PORT), TCP_RULE], {PCa}))
    case EpicsPva => Some(ProtocolFilter([UdpRule(Pva.DEFAULT_UDP_PORT), TCP_RULE], {PPva}))
    case Unrecognized(_) => None
  }

  predicate Known(name: Name) {
    FilterOf(name).Some?
  }

  /** The rules of the selected protocols in the order the names come. */
  function RulesOf(names: seq<Name>): seq<B.Rule> {
    if names == [] then []
    else (if Known(names[0]) then FilterOf(names[0]).value.rules else []) + RulesOf(names[1..])
  }

  function DisplaysOf(names: seq<Name>): set<Protocol> {
    if names == [] then {}
    else (if Known(names[0]) then FilterOf(names[0]).value.displays else {}) + DisplaysOf(names[1..])
  }

  /** A program, or none when nothing is selected or a selection has no kernel rule. */
  datatype Selection =
    | Everything
    | DisplayOnly(display: set<Protocol>)
    | Kernel(prog: seq<B.Instruction>, display: set<Protocol>)
    | Unknown(name: Name)
    | NotAssembled(error: B.Error)

  function FirstUnknown(names: seq<Name>): Option<Name> {
    if names == [] then None else if !Known(names[0]) then Some(names[0]) else FirstUnknown(names[1..])
  }

  /** A protocol without kernel rules is among the names. */
  predicate HasRuleless(names: seq<Name>) {
    exists n :: n in names && FilterOf(n).Some? && FilterOf(n).value.rules == []
  }

  function Selected(names: seq<Name>): Selection {
    if names == [] then Everything
    else
      match FirstUnknown(names)
      case Some(n) => Unknown(n)
      case None =>
        if HasRuleless(names) then DisplayOnly(DisplaysOf(names))
        else
          match B.Assembled(RulesOf(names))
          case Err(e) => NotAssembled(e)
          case Ok(prog) => Kernel(prog, DisplaysOf(names))
  }

  lemma {:induction false} RulesSplit(names: seq<Name>, more: seq<Name>)
    ensures RulesOf(names + more) == RulesOf(names) + RulesOf(more)
  {
    if names == [] {
      assert names + more == more;
    } else {
      assert (names + more)[1..] == names[1..] + more;
      RulesSplit(names[1..], more);
    }
  }

  lemma {:induction false} DisplaysSplit(names: seq<Name>, more: seq<Name>)
    ensures DisplaysOf(names + more) == DisplaysOf(names) + DisplaysOf(more)
  {
    if names == [] {
      assert names + more == more;
    } else {
      assert (names + more)[1..] == names[1..] + more;
      DisplaysSplit(names[1..], more);
    }
  }

  lemma {:induction false} UnknownSplit(names: seq<Name>, more: seq<Name>)
    requires FirstUnknown(names).None?
    ensures FirstUnknown(names + more) == FirstUnknown(more)
  {
    if names == [] {
      assert names + more == more;
    } else {
      assert (names + more)[1..] == names[1..] + more;
      UnknownSplit(names[1..], more);
    }
  }

  lemma SelectionSplits(names: seq<Name>, more: seq<Name>)
    ensures RulesOf(names + more) == RulesOf(names) + RulesOf(more)
    ensures DisplaysOf(names + more) == DisplaysOf(names) + DisplaysOf(more)
    ensures FirstUnknown(names).None? ==> FirstUnknown(names + more) == FirstUnknown(more)
  {
    RulesSplit(names, more);
    DisplaysSplit(names, more);
    if FirstUnknown(names).None? {
      UnknownSplit(names, more);
    }
  }

  lemma OneName(n: Name)
    ensures RulesOf([n]) == (if Known(n) then FilterOf(n).value.rules else [])
    ensures DisplaysOf([n]) == (if Known(n) then FilterOf(n).value.displays else {})
    ensures FirstUnknown([n]) == if Known(n) then None else Some(n)
  {
    assert [n][1..] == [];
    assert RulesOf([]) == [] && DisplaysOf([]) == {};
  }

  lemma RulelessMore(names: seq<Name>, n: Name)
    ensures HasRuleless(names + [n]) <==> HasRuleless(names) || (Known(n) && FilterOf(n).value.rules == [])
  {
    assert forall x :: x in names + [n] <==> x in names || x == n;
  }

  /** What one more known name adds to a selection. */
  lemma NextName(names: seq<Name>, i: nat)
    requires i < |names| && FirstUnknown(names[..i]).None? && Known(names[i])
    ensures var f := FilterOf(names[i]).value;
            && RulesOf(names[..i + 1]) == RulesOf(names[..i]) + f.rules
            && DisplaysOf(names[..i + 1]) == DisplaysOf(names[..i]) + f.displays
            && FirstUnknown(names[..i + 1]).None?
            && (HasRuleless(names[..i + 1]) <==> HasRuleless(names[..i]) || f.rules == [])
  {
    assert names[..i + 1] == names[..i] + [names[i]];
    OneName(names[i]);
    SelectionSplits(names[..i], [names[i]]);
    RulelessMore(names[..i], names[i]);
  }

  /** The first unknown name is where the loop stops. */
  lemma FirstUnknownHere(names: seq<Name>, i: nat)
    requires i < |names| && FirstUnknown(names[..i]).None? && !Known(names[i])
    ensures FirstUnknown(names) == Some(names[i])
  {
    assert names == names[..i] + names[i..];
    UnknownSplit(names[..i], names[i..]);
  }

  /** names is the order in which Go ranges over the selected set. */
  method FilterFor(names: seq<Name>) returns (s: Selection)
    ensures s == Selected(names)
  {
    if |names| == 0 {
      return Everything;
    }
    var rules: seq<B.Rule> := [];
    var display: set<Protocol> := {};
    var kernel := true;
    for i := 0 to |names|
      invariant rules == RulesOf(names[..i]) && display == DisplaysOf(names[..i])
      invariant FirstUnknown(names[..i]).None?
      invariant kernel <==> !HasRuleless(names[..i])
    {
      match FilterOf(names[i])
      case None =>
        FirstUnknownHere(names, i);
        return Unknown(names[i]);
      case Some(f) =>
        NextName(names, i);
        if |f.rules| == 0 {
          kernel := false;
        }
        rules := rules + f.rules;
        display := display + f.displays;
    }
    assert names[..|names|] == names;
    if !kernel {
      return DisplayOnly(display);
    }
    var prog := B.Assemble(rules);
    match prog
    case Err(e) => return NotAssembled(e);
    case Ok(p) => return Kernel(p, display);
  }

  // ---------------------------------------------------------------- display

  function ProtocolOf(o: Observation): Protocol {
    match o
    case FrameSeen(_) => PEthernet
    case ArpSeen(_) => PArp
    case LldpSeen(_) => PLldp
    case Ipv4Seen(_) => PIpv4
    case Ipv6Seen(_) => PIpv6
    case Icmpv6Seen(_) => PIcmpv6
    case DhcpSeen(_) => PDhcp
    case TcpSeen(_) => PTcp
    case CaSeen(_, _) => PCa
    case PvaSeen(_, _) => PPva
  }

  /** Whether a packet is shown: one of its observations is of a displayed protocol. */
  predicate Shown(obs: seq<Observation>, display: Option<set<Protocol>>) {
    display.None? || exists o :: o in obs && ProtocolOf(o) in display.value
  }

  method WantPacket(obs: seq<Observation>, display: Option<set<Protocol>>) returns (want: bool)
    ensures want <==> Shown(obs, display)
  {
    if display.None? {
      return true;
    }
    for i := 0 to |obs|
      invariant forall j :: 0 <= j < i ==> ProtocolOf(obs[j]) !in display.value
    {
      if ProtocolOf(obs[i]) in display.value {
        return true;
      }
    }
    return false;
  }

  // ---------------------------------------------------------------- assembling a selection

  predicate Distinct(names: seq<Name>) {
    forall i, j :: 0 <= i < j < |names| ==> names[i] != names[j]
  }

  lemma {:induction false} DistinctBound(names: seq<Name>, all: set<Name>)
    requires Distinct(names) && forall n :: n in names ==> n in all
    ensures |names| <= |all|
    decreases |names|
  {
    if names == [] {
    } else {
      assert forall n :: n in names[1..] ==> n in names;
      forall n | n in names[1..] ensures n in all - {names[0]} {
        var i :| 0 <= i < |names[1..]| && names[1..][i] == n;
        assert names[i + 1] == n;
      }
      DistinctBound(names[1..], all - {names[0]});
    }
  }

  const MAX_FILTER_SIZE := 26

  lemma {:induction false} SelectionSize(names: seq<Name>)
    requires forall n :: n in names ==> n in KERNEL_NAMES
    ensures BpfLinking.AllValid(RulesOf(names)) && BpfLinking.RulesSize(RulesOf(names)) <= MAX_FILTER_SIZE * |names|
  {
    if names == [] {
    } else {
      assert names[0] in names;
      assert forall n :: n in names[1..] ==> n in names;
      FilterSize(names[0]);
      SelectionSize(names[1..]);
      RulesSizeConcat(FilterOf(names[0]).value.rules, RulesOf(names[1..]));
    }
  }

  /** The rules of one protocol are few: their sizes one by one. */
  lemma FewRulesSize(rules: seq<B.Rule>)
    requires 1 <= |rules| <= 3
    ensures BpfLinking.RulesSize(rules) == BpfLinking.RuleSize(rules[0])
              + (if |rules| > 1 then BpfLinking.RuleSize(rules[1]) else 0) + (if |rules| > 2 then BpfLinking.RuleSize(rules[2]) else 0)
  {
    assert BpfLinking.RulesSize(rules) == BpfLinking.RuleSize(rules[0]) + BpfLinking.RulesSize(rules[1..]);
    if |rules| > 1 {
      assert rules[1..][1..] == rules[2..] && rules[1..][0] == rules[1];
      if |rules| > 2 {
        assert rules[2..][1..] == [] && rules[2..][0] == rules[2];
      }
    }
  }

  lemma FilterSize(name: Name)
    requires name in KERNEL_NAMES
    ensures Known(name) && FilterOf(name).value.rules != []
    ensures var rules := FilterOf(name).value.rules;
            BpfLinking.AllValid(rules) && BpfLinking.RulesSize(rules) <= MAX_FILTER_SIZE
  {
    FewRulesSize(FilterOf(name).value.rules);
  }

  lemma {:induction false} RulesSizeConcat(xs: seq<B.Rule>, ys: seq<B.Rule>)
    ensures BpfLinking.RulesSize(xs + ys) == BpfLinking.RulesSize(xs) + BpfLinking.RulesSize(ys)
  {
    if xs == [] {
      assert xs + ys == ys;
    } else {
      assert (xs + ys)[1..] == xs[1..] + ys;
      RulesSizeConcat(xs[1..], ys);
    }
  }

  /** A single known protocol is compiled to the program of its rules. */
  lemma SelectsOne(name: Name)
    requires name in KERNEL_NAMES
    ensures Known(name) && Selected([name]).Kernel?
    ensures B.Assembled(FilterOf(name).value.rules) == Ok(Selected([name]).prog)
  {
    FilterSize(name);
    assert [name][1..] == [];
    assert RulesOf([name]) == FilterOf(name).value.rules;
    KernelNamesKnown([name]);
    SelectionAssembles([name]);
  }

  /** Every combination of known protocols with kernel rules assembles, in whatever order they come. */
  lemma SelectionAssembles(names: seq<Name>)
    requires Distinct(names) && forall n :: n in names ==> n in KERNEL_NAMES
    ensures B.Assembled(RulesOf(names)).Ok?
  {
    DistinctBound(names, KERNEL_NAMES);
    SelectionSize(names);
    BpfLinking.Within257Assembles(RulesOf(names));
  }

  // ---------------------------------------------------------------- what the kernel sees and the decoder gets

  datatype Tag = Tag(tpid: u16, tci: u16)

  /** The packet handed to the decoder: the frame cut to the capture length, its stripped tag put back. */
  function Delivered(frame: seq<byte>, tag: Option<Tag>, snapLen: nat): seq<byte> {
    var captured := frame[..Min(|frame|, snapLen)];
    if tag.Some? && |captured| >= 12 then captured[..12] + Put16(tag.value.tpid) + Put16(tag.value.tci) + captured[12..]
    else captured
  }

  predicate InBandTagged(frame: seq<byte>) {
    |frame| >= 14 && (U16(frame, 12) == ETHERTYPE_VLAN || U16(frame, 12) == ETHERTYPE_QINQ)
  }

  /** The tag, if any, travelled beside the frame, where the filter does not see it. */
  predicate OutOfBand(frame: seq<byte>, tag: Option<Tag>) {
    match tag
    case None => !InBandTagged(frame)
    case Some(t) => t.tpid == ETHERTYPE_VLAN || t.tpid == ETHERTYPE_QINQ
  }

  /** The decoder then reads the type field the filter reads, and a payload that follows it. */
  lemma DeliveredFrame(frame: seq<byte>, tag: Option<Tag>, snapLen: nat)
    requires OutOfBand(frame, tag) && ParseEthernet(Delivered(frame, tag, snapLen)).Ok?
    ensures var f := ParseEthernet(Delivered(frame, tag, snapLen)).value;
            && 14 + |f.payload| <= |frame| && f.etherType == U16(frame, 12)
            && f.payload == frame[14..14 + |f.payload|]
  {
    var n := Min(|frame|, snapLen);
    var captured, data := frame[..n], Delivered(frame, tag, snapLen);
    if tag.Some? {
      var head := captured[..12] + Put16(tag.value.tpid) + Put16(tag.value.tci);
      assert |captured| >= 12 && data == head + captured[12..];
      assert data[16] == captured[12] && data[17] == captured[13];
      U16Within(data, 12, tag.value.tpid);
      assert data[12..14] == Put16(tag.value.tpid);
      assert data[18..] == captured[14..] == frame[14..n];
    } else {
      assert data[14..] == frame[14..n];
    }
  }

  // ---------------------------------------------------------------- completeness of single selections

  /** The observations of one frame come from the branch of its type. */
  lemma ProtocolOfFrame(s: Hints, ps: Parsers, f: Frame, o: Observation)
    requires o in DecodedFrame(s, ps, f)
    ensures o.ArpSeen? ==> f.etherType == ETHERTYPE_ARP
    ensures o.LldpSeen? ==> f.etherType == ETHERTYPE_LLDP
    ensures o.Ipv6Seen? ==> f.etherType == ETHERTYPE_IPV6
    ensures o.Ipv4Seen? ==> f.etherType == ETHERTYPE_IPV4
    ensures o.TcpSeen? || o.DhcpSeen? ==> f.etherType == ETHERTYPE_IPV4 && o in DecodedIpv4(s, ps, f.payload)
  {
    if f.etherType == ETHERTYPE_IPV4 && o != FrameSeen(f) {
      Ipv4Observations(s, ps, f.payload, o);
    }
  }

  lemma Ipv4Observations(s: Hints, ps: Parsers, payload: seq<byte>, o: Observation)
    requires o in DecodedIpv4(s, ps, payload)
    ensures ParseIpv4(payload).Ok?
    ensures var p := ParseIpv4(payload).value;
            && (o == Ipv4Seen(p) || o.TcpSeen? || o.DhcpSeen? || o.CaSeen? || o.PvaSeen?)
            && (o.TcpSeen? ==> !p.payloadDrop && p.protocol == PROTO_TCP)
            && (o.DhcpSeen? ==> !p.payloadDrop && p.protocol == PROTO_UDP && o in DecodedUdp(s, ps, p.src, p.dst, p.payload))
  {
    var p := ParseIpv4(payload).value;
    if o != Ipv4Seen(p) {
      if p.protocol == PROTO_UDP {
        UdpObservations(s, ps, p.src, p.dst, p.payload, o);
      } else {
        TcpObservations(s, p.src, p.dst, p.payload, o);
      }
    }
  }

  lemma UdpObservations(s: Hints, ps: Parsers, src: Addr, dst: Addr, payload: seq<byte>, o: Observation)
    requires o in DecodedUdp(s, ps, src, dst, payload)
    ensures o.DhcpSeen? || o.CaSeen? || o.PvaSeen?
    ensures o.DhcpSeen? ==>
              && ParseUdp(payload).Ok?
              && (IsPort(ParseUdp(payload).value, DHCP_SERVER_PORT) || IsPort(ParseUdp(payload).value, DHCP_CLIENT_PORT))
  {
    EpicsOnly(s, src, dst, o);
  }

  lemma TcpObservations(s: Hints, src: Addr, dst: Addr, payload: seq<byte>, o: Observation)
    requires o in DecodedTcp(s, src, dst, payload)
    ensures o.TcpSeen? || o.CaSeen? || o.PvaSeen?
  {
    EpicsOnly(s, src, dst, o);
  }

  /** The EPICS branches emit nothing but their own observations. */
  lemma EpicsOnly(s: Hints, src: Addr, dst: Addr, o: Observation)
    ensures forall t, sp, dp, payload, conf :: o in DecodedCa(s, t, src, dst, sp, dp, payload, conf) ==> o.CaSeen?
    ensures forall t, sp, dp, payload, conf :: o in DecodedPva(t, src, dst, sp, dp, payload, conf) ==> o.PvaSeen?
  {
    forall t, sp, dp, payload, conf | o in DecodedCa(s, t, src, dst, sp, dp, payload, conf) ensures o.CaSeen? {
      CaOnly(Ca.ParseSpec(payload, t == Ca.Udp).msgs, t, src, dst, sp, dp, s.ports.caServer, o);
    }
    forall t, sp, dp, payload, conf | o in DecodedPva(t, src, dst, sp, dp, payload, conf) ensures o.PvaSeen? {
      PvaOnly(Pva.ParseSpec(payload).msgs, t, src, dst, sp, dp, o);
    }
  }

  lemma {:induction false} CaOnly(msgs: seq<Ca.Message>, t: Ca.Transport, src: Addr, dst: Addr, sp: u16, dp: u16, port: u16, o: Observation)
    ensures forall c :: o in CaObservations(msgs, t, src, dst, sp, dp, port, c) ==> o.CaSeen?
  {
    if msgs == [] {
    } else {
      CaOnly(msgs[1..], t, src, dst, sp, dp, port, o);
    }
  }

  lemma {:induction false} PvaOnly(msgs: seq<Pva.Message>, t: PvaMessages.Transport, src: Addr, dst: Addr, sp: u16, dp: u16, o: Observation)
    ensures forall c :: o in PvaObservations(msgs, t, src, dst, sp, dp, c) ==> o.PvaSeen?
  {
    if msgs == [] {
    } else {
      PvaOnly(msgs[1..], t, src, dst, sp, dp, o);
    }
  }

  /** The IPv4 header fields, read from the frame. */
  lemma Ipv4Fields(frame: seq<byte>, n: nat)
    requires 14 + n <= |frame| && ParseIpv4(frame[14..14 + n]).Ok?
    ensures var p := ParseIpv4(frame[14..14 + n]).value;
            && 34 <= 14 + p.headerLen <= 14 + n
            && frame[23] == p.protocol && p.headerLen == 4 * (frame[14] % 16)
            && U16(frame, 20) % 0x2000 == p.fragOffset && (p.payloadDrop <==> p.fragOffset != 0)
  {
    var payload := frame[14..14 + n];
    assert payload[6] == frame[20] && payload[7] == frame[21] && payload[9] == frame[23] && payload[0] == frame[14];
  }

  lemma Ipv4PayloadPlace(frame: seq<byte>, n: nat)
    requires 14 + n <= |frame| && ParseIpv4(frame[14..14 + n]).Ok?
    ensures var p := ParseIpv4(frame[14..14 + n]).value;
            var h := 14 + p.headerLen;
            !p.payloadDrop ==> h + |p.payload| <= |frame| && p.payload == frame[h..h + |p.payload|]
  {
    var payload := frame[14..14 + n];
    var p := ParseIpv4(payload).value;
    var hl := p.headerLen;
    if !p.payloadDrop {
      var end := Min(Max(p.totalLen, hl), n);
      assert p.payload == payload[hl..end] && |p.payload| == end - hl;
      SliceOfSlice(frame, 14, 14 + n, hl, end);
    }
  }

  /** A displayed DHCP packet makes both DHCP rules decide without a fault, and one of them match. */
  lemma DhcpRulesDecide(frame: seq<byte>, n: nat)
    requires 14 + n <= |frame| && U16(frame, 12) == ETHERTYPE_IPV4 && ParseIpv4(frame[14..14 + n]).Ok?
    requires var p := ParseIpv4(frame[14..14 + n]).value;
             && !p.payloadDrop && p.protocol == PROTO_UDP && ParseUdp(p.payload).Ok?
             && (IsPort(ParseUdp(p.payload).value, DHCP_SERVER_PORT) || IsPort(ParseUdp(p.payload).value, DHCP_CLIENT_PORT))
    ensures B.RuleMeaning(UdpRule(DHCP_SERVER_PORT), frame) != B.Fault && B.RuleMeaning(UdpRule(DHCP_CLIENT_PORT), frame) != B.Fault
    ensures B.RuleMeaning(UdpRule(DHCP_SERVER_PORT), frame) == B.Match || B.RuleMeaning(UdpRule(DHCP_CLIENT_PORT), frame) == B.Match
  {
    Ipv4Fields(frame, n);
    Ipv4PayloadPlace(frame, n);
    var p := ParseIpv4(frame[14..14 + n]).value;
    var h := 14 + p.headerLen;
    assert p.payload[0] == frame[h] && p.payload[1] == frame[h + 1] && p.payload[2] == frame[h + 2] && p.payload[3] == frame[h + 3];
    UdpRuleMeaning(frame, DHCP_SERVER_PORT);
    UdpRuleMeaning(frame, DHCP_CLIENT_PORT);
  }

  /** On an unfragmented frame that holds both ports, a UDP port rule compares them. */
  lemma UdpRuleMeaning(frame: seq<byte>, port: u16)
    requires |frame| >= 34 && U16(frame, 12) == ETHERTYPE_IPV4 && frame[23] == PROTO_UDP && U16(frame, 20) % 0x2000 == 0 && port != 0
    requires var h := 14 + 4 * (frame[14] % 16); h + 4 <= |frame|
    ensures var h := 14 + 4 * (frame[14] % 16);
            B.RuleMeaning(UdpRule(port), frame) == B.Bool(U16(frame, h) == port || U16(frame, h + 2) == port)
  {
  }

  const COMPLETE_NAMES: set<Name> := {Arp, Lldp, Ipv4, Ipv6, Dhcp, Tcp}

  /** What lets a decoded frame be displayed as TCP or DHCP, in terms of its headers. */
  predicate TcpHeaders(payload: seq<byte>) {
    ParseIpv4(payload).Ok? && ParseIpv4(payload).value.protocol == PROTO_TCP
  }

  predicate DhcpHeaders(payload: seq<byte>) {
    && ParseIpv4(payload).Ok?
    && var p := ParseIpv4(payload).value;
    && !p.payloadDrop && p.protocol == PROTO_UDP && ParseUdp(p.payload).Ok?
    && (IsPort(ParseUdp(p.payload).value, DHCP_SERVER_PORT) || IsPort(ParseUdp(p.payload).value, DHCP_CLIENT_PORT))
  }

  lemma ObservedHeaders(s: Hints, ps: Parsers, payload: seq<byte>, o: Observation)
    requires o in DecodedIpv4(s, ps, payload)
    ensures o.TcpSeen? ==> TcpHeaders(payload)
    ensures o.DhcpSeen? ==> DhcpHeaders(payload)
  {
    Ipv4Observations(s, ps, payload, o);
    var p := ParseIpv4(payload).value;
    if o.DhcpSeen? {
      UdpObservations(s, ps, p.src, p.dst, p.payload, o);
    }
  }

  /** What a frame that yields an observation of the protocol looks like. */
  predicate LooksLike(p: Protocol, f: Frame) {
    match p
    case PArp => f.etherType == ETHERTYPE_ARP
    case PLldp => f.etherType == ETHERTYPE_LLDP
    case PIpv6 => f.etherType == ETHERTYPE_IPV6
    case PIpv4 => f.etherType == ETHERTYPE_IPV4
    case PTcp => f.etherType == ETHERTYPE_IPV4 && TcpHeaders(f.payload)
    case PDhcp => f.etherType == ETHERTYPE_IPV4 && DhcpHeaders(f.payload)
    case _ => true
  }

  lemma ObservedLooksLike(s: Hints, ps: Parsers, f: Frame, o: Observation)
    requires o in DecodedFrame(s, ps, f)
    ensures LooksLike(ProtocolOf(o), f)
  {
    ProtocolOfFrame(s, ps, f, o);
    if o.TcpSeen? || o.DhcpSeen? {
      ObservedHeaders(s, ps, f.payload, o);
    }
  }

  lemma DisplayedLooksLike(p: Protocol, s: Hints, ps: Parsers, f: Frame)
    requires Shown(DecodedFrame(s, ps, f), Some({p}))
    ensures LooksLike(p, f)
  {
    var obs := DecodedFrame(s, ps, f);
    var o :| o in obs && ProtocolOf(o) == p;
    ObservedLooksLike(s, ps, f, o);
  }

  /** No rule of a list faults on the frame, and one matches. */
  predicate Decides(rules: seq<B.Rule>, frame: seq<byte>) {
    !BpfCorrectness.AnyOutcome(rules, frame, B.Fault) && BpfCorrectness.AnyOutcome(rules, frame, B.Match)
  }

  lemma DhcpDecides(frame: seq<byte>, n: nat)
    requires 14 + n <= |frame| && U16(frame, 12) == ETHERTYPE_IPV4 && DhcpHeaders(frame[14..14 + n])
    ensures Decides(FilterOf(Dhcp).value.rules, frame)
  {
    var rules := FilterOf(Dhcp).value.rules;
    DhcpRulesDecide(frame, n);
    assert rules[0] in rules && rules[1] in rules;
  }

  lemma TcpDecides(frame: seq<byte>, n: nat)
    requires 14 + n <= |frame| && U16(frame, 12) == ETHERTYPE_IPV4 && TcpHeaders(frame[14..14 + n])
    ensures Decides(FilterOf(Tcp).value.rules, frame)
  {
    var rules := FilterOf(Tcp).value.rules;
    Ipv4Fields(frame, n);
    assert rules[0] in rules && B.RuleMeaning(TCP_RULE, frame) == B.Match;
  }

  lemma TypeDecides(name: Name, frame: seq<byte>)
    requires Known(name) && |FilterOf(name).value.rules| == 1 && |frame| >= 14
    requires var r := FilterOf(name).value.rules[0]; r.ipProto == 0 && r.port == 0 && U16(frame, 12) == r.etherType
    ensures Decides(FilterOf(name).value.rules, frame)
  {
    var rules := FilterOf(name).value.rules;
    assert rules[0] in rules && B.RuleMeaning(rules[0], frame) == B.Match;
  }

  /** On such a frame the rules of the selection decide. */
  lemma RulesDecide(name: Name, p: Protocol, frame: seq<byte>, f: Frame)
    requires name in COMPLETE_NAMES && p in FilterOf(name).value.displays && LooksLike(p, f)
    requires 14 + |f.payload| <= |frame| && f.etherType == U16(frame, 12) && f.payload == frame[14..14 + |f.payload|]
    ensures Decides(FilterOf(name).value.rules, frame)
  {
    match name
    case Dhcp => DhcpDecides(frame, |f.payload|);
    case Tcp => TcpDecides(frame, |f.payload|);
    case _ => TypeDecides(name, frame);
  }

  /** Where the rules of a protocol decide, its program accepts the frame. */
  lemma DecidedIsAccepted(name: Name, frame: seq<byte>)
    requires name in KERNEL_NAMES && Known(name) && Decides(FilterOf(name).value.rules, frame)
    ensures Selected([name]).Kernel?
    ensures B.Verdict(Selected([name]).prog, frame) == B.Halted(B.ACCEPT_LENGTH)
  {
    FilterSize(name);
    SelectsOne(name);
    BpfCorrectness.FaultFreeVerdict(FilterOf(name).value.rules, frame);
  }

  /** What the decoder displays of a frame makes the rules of the selection decide. */
  lemma ShownDecides(name: Name, frame: seq<byte>, tag: Option<Tag>, snapLen: nat, s: State, ps: Parsers)
    requires name in COMPLETE_NAMES && OutOfBand(frame, tag)
    requires Shown(Decoded(s, ps, Packet(LINK_TYPE_ETHERNET, Delivered(frame, tag, snapLen))), Some(FilterOf(name).value.displays))
    ensures Decides(FilterOf(name).value.rules, frame)
  {
    var f := ParseEthernet(Delivered(frame, tag, snapLen)).value;
    DeliveredFrame(frame, tag, snapLen);
    var p :| FilterOf(name).value.displays == {p};
    DisplayedLooksLike(p, s.hints, ps, f);
    RulesDecide(name, p, frame, f);
  }

  /**
    The kernel filter never hides what the decoder would show: whatever a decoder in any state would
    display for one of these selections, its program accepts, for every frame whose tag travels out
    of band and every capture length.
   */
  lemma KernelFilterComplete(name: Name, frame: seq<byte>, tag: Option<Tag>, snapLen: nat, s: State, ps: Parsers)
    requires name in COMPLETE_NAMES && OutOfBand(frame, tag)
    requires Shown(Decoded(s, ps, Packet(LINK_TYPE_ETHERNET, Delivered(frame, tag, snapLen))), Some(FilterOf(name).value.displays))
    ensures Selected([name]).Kernel?
    ensures B.Verdict(Selected([name]).prog, frame) == B.Halted(B.ACCEPT_LENGTH)
  {
    ShownDecides(name, frame, tag, snapLen, s, ps);
    DecidedIsAccepted(name, frame);
  }

  /** Every rule of a known protocol compares the type field first. */
  lemma OtherTypeMisses(name: Name, frame: seq<byte>)
    requires name in KERNEL_NAMES && InBandTagged(frame)
    ensures forall r :: r in FilterOf(name).value.rules ==> B.RuleMeaning(r, frame) == B.NoMatch
  {
  }

  /** No program of a single selection accepts a frame whose tag is in band. */
  lemma InBandMissed(name: Name, frame: seq<byte>)
    requires name in KERNEL_NAMES && InBandTagged(frame)
    ensures Selected([name]).Kernel? && B.Verdict(Selected([name]).prog, frame) == B.Halted(0)
  {
    var rules := FilterOf(name).value.rules;
    FilterSize(name);
    SelectsOne(name);
    OtherTypeMisses(name, frame);
    BpfCorrectness.MatchlessMeaning(rules, frame);
    BpfCorrectness.AssembledVerdict(rules, frame);
  }

  /**
    Exactly the frames a single selection shows and lets pass: of what the decoder would display, the
    program accepts the frame if and only if its tag, if it has one, travelled out of band.
   */
  lemma ShownAcceptedIffOutOfBand(name: Name, frame: seq<byte>, tag: Option<Tag>, snapLen: nat, s: State, ps: Parsers)
    requires name in COMPLETE_NAMES && (tag.Some? ==> tag.value.tpid == ETHERTYPE_VLAN || tag.value.tpid == ETHERTYPE_QINQ)
    requires Shown(Decoded(s, ps, Packet(LINK_TYPE_ETHERNET, Delivered(frame, tag, snapLen))), Some(FilterOf(name).value.displays))
    ensures Selected([name]).Kernel?
    ensures B.Verdict(Selected([name]).prog, frame) == B.Halted(B.ACCEPT_LENGTH) <==> OutOfBand(frame, tag)
  {
    if OutOfBand(frame, tag) {
      KernelFilterComplete(name, frame, tag, snapLen, s, ps);
    } else {
      InBandMissed(name, frame);
    }
  }

  // ---------------------------------------------------------------- where completeness ends

  const ZERO_HEADER: seq<byte> := [0, 0, 0, 0, 0, 0, 0, 0, 0, 0, 0, 0]

  const IN_BAND_ARP: seq<byte> := ZERO_HEADER + [0x81, 0, 0, 1, 0x08, 0x06]

  lemma InBandArpShown(s: State, ps: Parsers)
    requires ps.arp([])
    ensures Delivered(IN_BAND_ARP, None, 64) == IN_BAND_ARP
    ensures Shown(Decoded(s, ps, Packet(LINK_TYPE_ETHERNET, IN_BAND_ARP)), Some({PArp}))
  {
    var obs := Decoded(s, ps, Packet(LINK_TYPE_ETHERNET, IN_BAND_ARP));
    assert IN_BAND_ARP[18..] == [];
    assert obs == [FrameSeen(ParseEthernet(IN_BAND_ARP).value), ArpSeen([])];
    assert ProtocolOf(obs[1]) == PArp;
  }

  /** An ARP frame whose tag stayed in band: the decoder looks behind the tag, the filter does not. */
  lemma InBandTagHidden(s: State, ps: Parsers)
    requires ps.arp([])
    ensures Shown(Decoded(s, ps, Packet(LINK_TYPE_ETHERNET, Delivered(IN_BAND_ARP, None, 64))), Some(FilterOf(Arp).value.displays))
    ensures Selected([Arp]).Kernel?
    ensures B.Verdict(Selected([Arp]).prog, IN_BAND_ARP) == B.Halted(0)
  {
    InBandArpShown(s, ps);
    InBandMissed(Arp, IN_BAND_ARP);
  }

  /** A bare IPv4 header type under the selection ipv4,dhcp: the range order of the Go map decides. */
  lemma CombinedSelectionOrderMatters()
    ensures var frame: seq<byte> := ZERO_HEADER + [0x08, 0x00];
            && Selected([Ipv4, Dhcp]).Kernel? && Selected([Dhcp, Ipv4]).Kernel?
            && B.Verdict(Selected([Ipv4, Dhcp]).prog, frame) == B.Halted(B.ACCEPT_LENGTH)
            && B.Verdict(Selected([Dhcp, Ipv4]).prog, frame) == B.Halted(0)
  {
    var frame: seq<byte> := ZERO_HEADER + [0x08, 0x00];
    var ipv4, dhcp := B.Rule(ETHERTYPE_IPV4, 0, 0), UdpRule(DHCP_SERVER_PORT);
    assert B.RuleMeaning(ipv4, frame) == B.Match && B.RuleMeaning(dhcp, frame) == B.Fault;
    PairVerdict(Ipv4, Dhcp, frame);
    PairVerdict(Dhcp, Ipv4, frame);
  }

  /** When the first rule of the first name does not fall through, it gives the verdict. */
  lemma PairVerdict(x: Name, y: Name, frame: seq<byte>)
    requires x in KERNEL_NAMES && y in KERNEL_NAMES && x != y
    requires FilterOf(x).value.rules != [] && B.RuleMeaning(FilterOf(x).value.rules[0], frame) != B.NoMatch
    ensures Selected([x, y]).Kernel?
    ensures B.Verdict(Selected([x, y]).prog, frame)
         == B.Halted(if B.RuleMeaning(FilterOf(x).value.rules[0], frame).Match? then B.ACCEPT_LENGTH else 0)
  {
    KernelNamesKnown([x, y]);
    SelectionAssembles([x, y]);
    assert [x, y][0] == x;
    assert RulesOf([x, y])[0] == FilterOf(x).value.rules[0];
    BpfCorrectness.AssembledVerdict(RulesOf([x, y]), frame);
  }

  // ---------------------------------------------------------------- the range order of the Go map

  /** What the rules of one name, which stay together and in order, make of a frame. */
  function NameMeaning(name: Name, frame: seq<byte>): B.Outcome {
    if Known(name) then B.RulesMeaning(FilterOf(name).value.rules, frame) else B.NoMatch
  }

  function NamesMeaning(names: seq<Name>, frame: seq<byte>): B.Outcome {
    if names == [] then B.NoMatch else B.Either(NameMeaning(names[0], frame), NamesMeaning(names[1..], frame))
  }

  predicate AnyMeans(names: seq<Name>, frame: seq<byte>, o: B.Outcome) {
    exists n :: n in names && NameMeaning(n, frame) == o
  }

  lemma {:induction false} RulesMeaningConcat(xs: seq<B.Rule>, ys: seq<B.Rule>, frame: seq<byte>)
    ensures B.RulesMeaning(xs + ys, frame) == B.Either(B.RulesMeaning(xs, frame), B.RulesMeaning(ys, frame))
  {
    if xs == [] {
      assert xs + ys == ys;
    } else {
      assert (xs + ys)[1..] == xs[1..] + ys;
      RulesMeaningConcat(xs[1..], ys, frame);
    }
  }

  lemma {:induction false} SelectionMeaning(names: seq<Name>, frame: seq<byte>)
    ensures B.RulesMeaning(RulesOf(names), frame) == NamesMeaning(names, frame)
  {
    if names == [] {
    } else {
      RulesMeaningConcat(if Known(names[0]) then FilterOf(names[0]).value.rules else [], RulesOf(names[1..]), frame);
      SelectionMeaning(names[1..], frame);
    }
  }

  /** If no name matches, or none faults, the order of the names is not seen. */
  lemma {:induction false} OneSidedMeaning(names: seq<Name>, frame: seq<byte>)
    ensures !AnyMeans(names, frame, B.Match) ==> !NamesMeaning(names, frame).Match?
    ensures !AnyMeans(names, frame, B.Fault) ==> (NamesMeaning(names, frame).Match? <==> AnyMeans(names, frame, B.Match))
  {
    if names == [] {
    } else {
      assert forall n :: n in names <==> n == names[0] || n in names[1..];
      OneSidedMeaning(names[1..], frame);
    }
  }

  lemma NameToFront(names: seq<Name>, n: Name) returns (p: seq<Name>)
    requires n in names
    ensures multiset(p) == multiset(names) && p != [] && p[0] == n
  {
    var i :| 0 <= i < |names| && names[i] == n;
    p := [n] + (names[..i] + names[i + 1..]);
    assert names == names[..i] + ([n] + names[i + 1..]);
  }

  lemma ReorderedMembers(p: seq<Name>, names: seq<Name>)
    requires multiset(p) == multiset(names)
    ensures |p| == |names| && forall n :: n in p <==> n in names
  {
    assert |multiset(p)| == |p| && |multiset(names)| == |names|;
    assert forall n :: n in p <==> n in multiset(p);
  }

  lemma ReorderedDistinct(p: seq<Name>, names: seq<Name>)
    requires multiset(p) == multiset(names) && Distinct(names)
    ensures Distinct(p)
  {
    forall i, j | 0 <= i < j < |p| ensures p[i] != p[j] {
      if p[i] == p[j] {
        TwiceCounted(p, i, j);
        OnceCounted(names, p[i]);
      }
    }
  }

  lemma TwiceCounted(p: seq<Name>, i: nat, j: nat)
    requires i < j < |p| && p[i] == p[j]
    ensures multiset(p)[p[i]] >= 2
  {
    assert p == p[..i] + [p[i]] + p[i + 1..j] + [p[j]] + p[j + 1..];
  }

  lemma {:induction false} OnceCounted(names: seq<Name>, n: Name)
    requires Distinct(names)
    ensures multiset(names)[n] <= 1
  {
    if names == [] {
    } else {
      assert names == [names[0]] + names[1..];
      OnceCounted(names[1..], n);
      if n == names[0] {
        assert n !in names[1..] by {
          assert forall k :: 0 <= k < |names| - 1 ==> names[1..][k] == names[k + 1];
        }
      }
    }
  }

  /** A selection becomes a program exactly when every name in it has kernel rules. */
  lemma KernelIff(names: seq<Name>)
    requires names != [] && Distinct(names)
    ensures Selected(names).Kernel? <==> forall n :: n in names ==> n in KERNEL_NAMES
    ensures Selected(names).Kernel? ==> B.Assembled(RulesOf(names)) == Ok(Selected(names).prog)
  {
    FirstUnknownIff(names);
    if forall n :: n in names ==> n in KERNEL_NAMES {
      SelectionAssembles(names);
      KernelNamesKnown(names);
    } else {
      var n :| n in names && n !in KERNEL_NAMES;
      assert n == Frames || n.Unrecognized?;
    }
  }

  lemma {:induction false} FirstUnknownIff(names: seq<Name>)
    ensures FirstUnknown(names).None? <==> forall n :: n in names ==> Known(n)
  {
    if names == [] {
    } else {
      assert forall n :: n in names <==> n == names[0] || n in names[1..];
      FirstUnknownIff(names[1..]);
    }
  }

  lemma SelectionVerdict(names: seq<Name>, frame: seq<byte>)
    requires names != [] && Distinct(names) && Selected(names).Kernel?
    ensures B.Verdict(Selected(names).prog, frame) == B.Halted(if NamesMeaning(names, frame).Match? then B.ACCEPT_LENGTH else 0)
  {
    KernelIff(names);
    SelectionMeaning(names, frame);
    assert names[0] in names;
    FilterSize(names[0]);
    assert RulesOf(names) == FilterOf(names[0]).value.rules + RulesOf(names[1..]);
    BpfCorrectness.AssembledVerdict(RulesOf(names), frame);
  }

  /** Every order in which Go can range over the names gives a program with the same verdict on the frame. */
  ghost predicate RangeOrderFree(names: seq<Name>, frame: seq<byte>) {
    forall p, q :: multiset(p) == multiset(names) && multiset(q) == multiset(names) ==>
      Selected(p).Kernel? && Selected(q).Kernel? && B.Verdict(Selected(p).prog, frame) == B.Verdict(Selected(q).prog, frame)
  }

  /**
    Exactly when the range order over the selected names does not matter for a frame: unless the rules
    of one name, taken together, match it and those of another fault on it.
   */
  lemma RangeOrderFreeIff(names: seq<Name>, frame: seq<byte>)
    requires names != [] && Distinct(names) && Selected(names).Kernel?
    ensures RangeOrderFree(names, frame) <==> !(AnyMeans(names, frame, B.Match) && AnyMeans(names, frame, B.Fault))
  {
    KernelIff(names);
    forall p | multiset(p) == multiset(names)
      ensures Selected(p).Kernel?
      ensures B.Verdict(Selected(p).prog, frame) == B.Halted(if NamesMeaning(p, frame).Match? then B.ACCEPT_LENGTH else 0)
    {
      ReorderedMembers(p, names);
      ReorderedDistinct(p, names);
      KernelIff(p);
      SelectionVerdict(p, frame);
    }
    if AnyMeans(names, frame, B.Match) && AnyMeans(names, frame, B.Fault) {
      var m :| m in names && NameMeaning(m, frame) == B.Match;
      var x :| x in names && NameMeaning(x, frame) == B.Fault;
      var p := NameToFront(names, m);
      var q := NameToFront(names, x);
      assert NamesMeaning(p, frame) == B.Match && NamesMeaning(q, frame) == B.Fault;
    } else {
      OrderUnseen(names, frame);
    }
  }

  /** Without both a matching and a faulting name, all orders mean the same. */
  lemma OrderUnseen(names: seq<Name>, frame: seq<byte>)
    requires !(AnyMeans(names, frame, B.Match) && AnyMeans(names, frame, B.Fault))
    ensures forall p, q :: multiset(p) == multiset(names) && multiset(q) == multiset(names) ==>
              NamesMeaning(p, frame).Match? == NamesMeaning(q, frame).Match?
  {
    forall p | multiset(p) == multiset(names)
      ensures NamesMeaning(p, frame).Match? <==> AnyMeans(names, frame, B.Match) && !AnyMeans(names, frame, B.Fault)
    {
      ReorderedMembers(p, names);
      OneSidedMeaning(p, frame);
    }
  }

  lemma {:induction false} KernelNamesKnown(names: seq<Name>)
    requires forall n :: n in names ==> n in KERNEL_NAMES
    ensures FirstUnknown(names).None?
    ensures forall n :: n in names ==> FilterOf(n).Some? && FilterOf(n).value.rules != []
  {
    if names == [] {
    } else {
      assert names[0] in names;
      assert forall n :: n in names[1..] ==> n in names;
      FilterSize(names[0]);
      KernelNamesKnown(names[1..]);
      assert forall n :: n in names <==> n == names[0] || n in names[1..];
    }
  }
}
