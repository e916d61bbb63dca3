/**
  What the device table makes of each observation (internal/device/device.go): the devices it touches
  and the addresses it records for them.
 */
module Sightings {
  import opened Bytes
  import opened NetIp
  import opened Wrappers
  import opened Devices
  import opened DeviceTable

  datatype ArpRole = Request | Reply | Probe | Announcement
  datatype NdpType = RouterSolicit | RouterAdvert | Solicit | Advert | Redirect
  datatype DhcpType = Discover | Offer | DhcpRequest | Ack | Nak | OtherDhcp

  /** An observation about addresses, with its time and packet. */
  datatype Observation =
    | Frame(source: Mac, at: int, ref: nat)
    | Arp(role: ArpRole, sender: Mac, senderIp: Addr, targetIp: Addr, at: int, ref: nat)
    | Ipv4(src: Addr, at: int, ref: nat)
    | Ipv6(src: Addr, at: int, ref: nat)
    | Ndp(kind: NdpType, dad: bool, solicited: bool, src: Addr, target: Addr, at: int, ref: nat)
    | Lldp(source: Mac, at: int, ref: nat)
    | Dhcp(message: DhcpType, client: Mac, yourIp: Addr, clientIp: Addr, serverId: Addr, src: Addr, at: int, ref: nat)

  /** A nonzero unicast address; the low bit of the first of its six bytes marks a group address. */
  predicate ValidKey(mac: Mac) {
    mac != 0 && mac / 0x100_0000_0000 % 2 == 0
  }

  predicate UsableV4(a: Addr) {
    a.V4? && !a.IsUnspecified() && !a.IsMulticast() && !a.IsLoopback() && a != V4(0xffff_ffff)
  }

  predicate UsableV6(a: Addr) {
    a.V6? && !a.IsUnspecified() && !a.IsMulticast() && !a.IsLoopback()
  }

  /** The address, or the other one if it is missing or unspecified. */
  function Or(a: Addr, other: Addr): Addr {
    if a.IsValid() && !a.IsUnspecified() then a else other
  }

  /** What one ARP sender shows about its address. */
  function ArpHolding(o: Observation): (Addr, State)
    requires o.Arp?
  {
    match o.role
    case Probe => (o.targetIp, Probing)
    case Announcement => (o.senderIp, Claimed)
    case Request => (o.senderIp, Observed)
    case Reply => (o.senderIp, Observed)
  }

  /** What a neighbor discovery message shows about an address of its sender. */
  function NdpHolding(o: Observation): Option<(Addr, State)>
    requires o.Ndp?
  {
    match o.kind
    case Solicit => if o.dad then Some((o.target, Probing)) else if UsableV6(o.src) then Some((o.src, Observed)) else None
    case Advert => Some((o.target, if o.solicited then Observed else Claimed))
    case RouterAdvert => if UsableV6(o.src) then Some((o.src, Observed)) else None
    case RouterSolicit => if UsableV6(o.src) then Some((o.src, Observed)) else None
    case Redirect => None
  }

  /** The address acknowledged to a DHCP client. */
  function DhcpHolding(o: Observation): Option<(Addr, State)>
    requires o.Dhcp?
  {
    if o.message.Ack? then Some((Or(o.yourIp, o.clientIp), Leased)) else None
  }

  /** The server's own address, if the message comes from a server. */
  function ServerHolding(o: Observation): Option<(Addr, State)>
    requires o.Dhcp?
  {
    if UsableV4(Or(o.serverId, o.src)) then Some((Or(o.serverId, o.src), Observed)) else None
  }

  predicate FromServer(o: Observation)
    requires o.Dhcp?
  {
    o.message.Offer? || o.message.Ack? || o.message.Nak?
  }

  /** A device is seen, maybe with an address. */
  function Sighted(mac: Mac, held: Option<(Addr, State)>, at: int, ref: nat): seq<Op> {
    match held
    case None => [Touch(mac, at)]
    case Some((addr, state)) => [Touch(mac, at), Hold(mac, addr, state, at, ref)]
  }

  predicate Keyed(frame: Option<Mac>) {
    frame.Some? && ValidKey(frame.value)
  }

  /** The steps the table takes for an observation of a packet whose frame came from this source. */
  function Ops(frame: Option<Mac>, o: Observation): seq<Op> {
    match o
    case Frame(source, at, ref) => if ValidKey(source) then Sighted(source, None, at, ref) else []
    case Arp(_, sender, _, _, at, ref) => if ValidKey(sender) then Sighted(sender, Some(ArpHolding(o)), at, ref) else []
    case Ipv4(src, at, ref) => if Keyed(frame) && UsableV4(src) then Sighted(frame.value, Some((src, Seen)), at, ref) else []
    case Ipv6(src, at, ref) => if Keyed(frame) && UsableV6(src) then Sighted(frame.value, Some((src, Seen)), at, ref) else []
    case Ndp(_, _, _, _, _, at, ref) => if Keyed(frame) then Sighted(frame.value, NdpHolding(o), at, ref) else []
    case Lldp(source, at, ref) => if ValidKey(source) then Sighted(source, None, at, ref) else []
    case Dhcp(_, client, _, _, _, _, at, ref) =>
      if !ValidKey(client) then []
      else Sighted(client, DhcpHolding(o), at, ref)
           + if FromServer(o) && Keyed(frame) then Sighted(frame.value, ServerHolding(o), at, ref) else []
  }

  // ---------------------------------------------------------------- what an observation shows

  predicate Known(devices: seq<Device>, mac: Mac) {
    exists i :: 0 <= i < |devices| && devices[i].mac == mac
  }

  /** The state in which a list has an address. */
  function StateIn(list: seq<Address>, addr: Addr): Option<State> {
    var k := Place(list, addr);
    if k < |list| then Some(list[k].state) else None
  }

  /** The state in which the device of a MAC lists an address. */
  function StateOf(devices: seq<Device>, mac: Mac, addr: Addr): Option<State> {
    var i := Find(devices, mac);
    if i == |devices| then None else StateIn(AddressesOf(devices[i], addr), addr)
  }

  /** The device lists as many weakly seen addresses of the family as it may. */
  predicate FullOfWeak(devices: seq<Device>, mac: Mac, addr: Addr) {
    var i := Find(devices, mac);
    i < |devices| && SeenCount(AddressesOf(devices[i], addr)) >= MAX_WEAK_ADDRESSES
  }

  /** The stronger of two states, the old one on a tie; a first weak sighting needs room. */
  function Merged(before: Option<State>, state: State, full: bool): Option<State> {
    match before
    case None => if state.Seen? && full then None else Some(state)
    case Some(s) => if Rank(state) > Rank(s) then Some(state) else before
  }

  /** The device of the MAC is known afterwards, and of all devices and addresses at most its one address changes its state. */
  ghost predicate ShownHolding(before: seq<Device>, after: seq<Device>, mac: Mac, addr: Addr, state: State) {
    && (forall m :: Known(after, m) <==> Known(before, m) || m == mac)
    && (forall m, a :: StateOf(after, m, a) ==
          if m == mac && a == addr && Holdable(a, a.V6?) then Merged(StateOf(before, m, a), state, FullOfWeak(before, m, a))
          else StateOf(before, m, a))
  }

  /** The device of the MAC is known afterwards, and no address changes its state. */
  ghost predicate ShownAlone(before: seq<Device>, after: seq<Device>, mac: Mac) {
    && (forall m :: Known(after, m) <==> Known(before, m) || m == mac)
    && (forall m, a :: StateOf(after, m, a) == StateOf(before, m, a))
  }

  /**
    What the table shows after an observation: whose address it is about and in which state, for every
    kind of observation. frame is the source of the frame that carried it.
   */
  ghost predicate Shows(before: seq<Device>, after: seq<Device>, frame: Option<Mac>, o: Observation) {
    match o
    case Frame(source, _, _) => if ValidKey(source) then ShownAlone(before, after, source) else after == before
    case Lldp(source, _, _) => if ValidKey(source) then ShownAlone(before, after, source) else after == before
    case Arp(role, sender, senderIp, targetIp, _, _) =>
      if !ValidKey(sender) then after == before
      else if role.Probe? then ShownHolding(before, after, sender, targetIp, Probing)
      else if role.Announcement? then ShownHolding(before, after, sender, senderIp, Claimed)
      else ShownHolding(before, after, sender, senderIp, Observed)
    case Ipv4(src, _, _) =>
      if Keyed(frame) && UsableV4(src) then ShownHolding(before, after, frame.value, src, Seen) else after == before
    case Ipv6(src, _, _) =>
      if Keyed(frame) && UsableV6(src) then ShownHolding(before, after, frame.value, src, Seen) else after == before
    case Ndp(kind, dad, solicited, src, target, _, _) =>
      if !Keyed(frame) then after == before
      else if kind.Solicit? && dad then ShownHolding(before, after, frame.value, target, Probing)
      else if kind.Advert? && !solicited then ShownHolding(before, after, frame.value, target, Claimed)
      else if kind.Advert? then ShownHolding(before, after, frame.value, target, Observed)
      else if !kind.Redirect? && UsableV6(src) then ShownHolding(before, after, frame.value, src, Observed)
      else ShownAlone(before, after, frame.value)
    case Dhcp(message, client, yourIp, clientIp, serverId, src, _, _) =>
      if !ValidKey(client) then after == before
      else exists between :: ShownClient(before, between, o) && ShownServer(between, after, frame, o)
  }

  /** The client of a DHCP message is seen; an acknowledgment leases it the address it names, or else the one it has. */
  ghost predicate ShownClient(before: seq<Device>, after: seq<Device>, o: Observation)
    requires o.Dhcp?
  {
    if !o.message.Ack? then ShownAlone(before, after, o.client)
    else if o.yourIp.IsValid() && !o.yourIp.IsUnspecified() then ShownHolding(before, after, o.client, o.yourIp, Leased)
    else ShownHolding(before, after, o.client, o.clientIp, Leased)
  }

  /** The sender of a server's message is seen, with the server's address if it is a usable IPv4 address. */
  ghost predicate ShownServer(before: seq<Device>, after: seq<Device>, frame: Option<Mac>, o: Observation)
    requires o.Dhcp?
  {
    if !Keyed(frame) || o.message.Discover? || o.message.DhcpRequest? || o.message.OtherDhcp? then after == before
    else
      var server := if o.serverId.IsValid() && !o.serverId.IsUnspecified() then o.serverId else o.src;
      if UsableV4(server) then ShownHolding(before, after, frame.value, server, Observed)
      else ShownAlone(before, after, frame.value)
  }

  lemma FindKnown(devices: seq<Device>, mac: Mac)
    ensures Known(devices, mac) <==> Find(devices, mac) < |devices|
  {
  }

  /** Replacing a device by one of the same MAC leaves every search at its place. */
  lemma FindReplaced(devices: seq<Device>, i: nat, d: Device, mac: Mac)
    requires i < |devices| && d.mac == devices[i].mac
    ensures Find(devices[i := d], mac) == Find(devices, mac)
  {
    var next := devices[i := d];
    assert forall k :: 0 <= k < |devices| ==> next[k].mac == devices[k].mac;
  }

  lemma FindAppended(devices: seq<Device>, d: Device, mac: Mac)
    ensures Find(devices + [d], mac) == if Find(devices, mac) == |devices| && d.mac != mac then |devices| + 1 else Find(devices, mac)
  {
    var next := devices + [d];
    assert forall k :: 0 <= k < |devices| ==> next[k] == devices[k];
    assert next[|devices|] == d;
  }

  lemma TouchShows(devices: seq<Device>, mac: Mac, at: int)
    ensures ShownAlone(devices, Touched(devices, mac, at), mac)
  {
    var next := Touched(devices, mac, at);
    var i := Find(devices, mac);
    forall m, a ensures StateOf(next, m, a) == StateOf(devices, m, a) {
      TouchFinds(devices, mac, at, m);
    }
    forall m ensures Known(next, m) <==> Known(devices, m) || m == mac {
      TouchFinds(devices, mac, at, m);
      FindKnown(next, m);
      FindKnown(devices, m);
    }
  }

  /** A touched table finds what it found before, and the device. */
  lemma TouchFinds(devices: seq<Device>, mac: Mac, at: int, m: Mac)
    ensures var next := Touched(devices, mac, at);
            && |devices| <= |next|
            && (Find(devices, m) < |devices| ==> Find(next, m) == Find(devices, m))
            && (Find(devices, m) == |devices| ==> Find(next, m) == |next| || m == mac)
            && Find(next, mac) < |next|
            && (Find(devices, mac) == |devices| ==> |next[Find(next, mac)].ipv4| == 0 && |next[Find(next, mac)].ipv6| == 0)
            && (Find(devices, mac) == |devices| ==> Find(next, mac) == |devices|)
  {
    var i := Find(devices, mac);
    if i < |devices| {
      FindReplaced(devices, i, devices[i].(lastSeen := Later(devices[i].lastSeen, at)), m);
    } else {
      var d := Device(mac, [], [], WeakHint, 0, at, at);
      FindAppended(devices, d, m);
      FindAppended(devices, d, mac);
    }
  }

  lemma StateInReplaced(list: seq<Address>, i: nat, a: Address, other: Addr)
    requires i < |list| && i == Place(list, a.addr)
    ensures StateIn(list[i := a], other) == if other == a.addr then Some(a.state) else StateIn(list, other)
  {
    var next := list[i := a];
    assert forall k :: 0 <= k < |list| ==> next[k].addr == list[k].addr;
    assert Place(next, other) == Place(list, other);
  }

  lemma StateInAppended(list: seq<Address>, a: Address, other: Addr)
    requires Place(list, a.addr) == |list|
    ensures StateIn(list + [a], other) == if other == a.addr then Some(a.state) else StateIn(list, other)
  {
    var next := list + [a];
    assert forall k :: 0 <= k < |list| ==> next[k] == list[k];
    assert next[|list|] == a;
  }

  /** In which state a list has each address after a sighting. */
  lemma NoteStates(list: seq<Address>, addr: Addr, state: State, at: int, ref: nat, other: Addr)
    ensures var before, after := StateIn(list, other), StateIn(NoteAddress(list, addr, state, at, ref).list, other);
            after == if other == addr then Merged(before, state, SeenCount(list) >= MAX_WEAK_ADDRESSES) else before
  {
    var i := Place(list, addr);
    if i < |list| {
      var a := list[i].(lastSeen := Later(list[i].lastSeen, at));
      StateInReplaced(list, i, if Rank(state) <= Rank(a.state) then a else a.(state := state, ref := ref), other);
    } else if !(state.Seen? && SeenCount(list) >= MAX_WEAK_ADDRESSES) {
      StateInAppended(list, Address(addr, state, at, at, ref), other);
    }
  }

  lemma HoldShows(m: Model, mac: Mac, addr: Addr, state: State, at: int, ref: nat)
    requires Find(m.devices, mac) < |m.devices|
    ensures var after := Do(m, Hold(mac, addr, state, at, ref)).devices;
            && (forall x :: Known(after, x) <==> Known(m.devices, x))
            && (forall x, a :: StateOf(after, x, a) ==
                  if x == mac && a == addr && Holdable(a, a.V6?) then Merged(StateOf(m.devices, x, a), state, FullOfWeak(m.devices, x, a))
                  else StateOf(m.devices, x, a))
  {
    if Holdable(addr, addr.V6?) {
      var i := Find(m.devices, mac);
      var d := DeviceNoted(m.devices[i], addr, state, at, ref);
      forall x ensures Known(m.devices[i := d], x) <==> Known(m.devices, x) {
        FindReplaced(m.devices, i, d, x);
        FindKnown(m.devices[i := d], x);
        FindKnown(m.devices, x);
      }
      forall x, a ensures StateOf(m.devices[i := d], x, a) ==
                            if x == mac && a == addr then Merged(StateOf(m.devices, x, a), state, FullOfWeak(m.devices, x, a))
                            else StateOf(m.devices, x, a)
      {
        FindReplaced(m.devices, i, d, x);
        NoteStates(AddressesOf(m.devices[i], addr), addr, state, at, ref, a);
      }
    }
  }

  lemma StrongerChanges(devices: seq<Device>, mac: Mac, addr: Addr, state: State, at: int, ref: nat)
    requires Find(devices, mac) < |devices|
    ensures var before := StateOf(devices, mac, addr);
            Stronger(devices[Find(devices, mac)], addr, state, at, ref) <==> Merged(before, state, FullOfWeak(devices, mac, addr)) != before
  {
  }

  lemma TouchReports(m: Model, who: Mac, at: int, mac: Mac, addr: Addr)
    ensures var op := Op.Touch(who, at);
            && (NewDevice(mac) in Report(m, op) <==> Known(Do(m, op).devices, mac) && !Known(m.devices, mac))
            && Update(mac, addr) !in Report(m, op) && StateOf(Do(m, op).devices, mac, addr) == StateOf(m.devices, mac, addr)
  {
    TouchShows(m.devices, who, at);
    FindKnown(m.devices, who);
  }

  lemma HoldReports(m: Model, op: Op, mac: Mac, addr: Addr)
    requires op.Hold?
    ensures NewDevice(mac) !in Report(m, op) && (Known(Do(m, op).devices, mac) <==> Known(m.devices, mac))
    ensures Update(mac, addr) in Report(m, op) <==> StateOf(Do(m, op).devices, mac, addr) != StateOf(m.devices, mac, addr)
  {
    if Find(m.devices, op.mac) < |m.devices| {
      HoldShows(m, op.mac, op.addr, op.state, op.at, op.ref);
      StrongerChanges(m.devices, op.mac, op.addr, op.state, op.at, op.ref);
    }
  }

  /**
    A step reports a new device exactly when it makes one known, and an update of an address exactly
    when it changes the state in which its device lists it.
   */
  lemma StepReportsChanges(m: Model, op: Op, mac: Mac, addr: Addr)
    ensures NewDevice(mac) in Report(m, op) <==> Known(Do(m, op).devices, mac) && !Known(m.devices, mac)
    ensures Update(mac, addr) in Report(m, op) <==> StateOf(Do(m, op).devices, mac, addr) != StateOf(m.devices, mac, addr)
  {
    match op
    case Touch(who, at) => TouchReports(m, who, at, mac, addr);
    case Hold(_, _, _, _, _) => HoldReports(m, op, mac, addr);
  }

  lemma SightedShows(m: Model, mac: Mac, held: Option<(Addr, State)>, at: int, ref: nat)
    ensures var after := Run(m, Sighted(mac, held, at, ref)).devices;
            match held
            case None => ShownAlone(m.devices, after, mac)
            case Some((addr, state)) => ShownHolding(m.devices, after, mac, addr, state)
  {
    var touch := Op.Touch(mac, at);
    TouchShows(m.devices, mac, at);
    TouchFinds(m.devices, mac, at, mac);
    RunOne(m, touch);
    if held.Some? {
      var hold := Hold(mac, held.value.0, held.value.1, at, ref);
      var touched := Do(m, touch);
      RunConcat(m, [touch], [hold]);
      RunOne(touched, hold);
      HoldShows(touched, mac, held.value.0, held.value.1, at, ref);
      TouchKeepsFull(m.devices, mac, at, held.value.0);
    }
  }

  lemma TouchKeepsFull(devices: seq<Device>, mac: Mac, at: int, addr: Addr)
    ensures FullOfWeak(Touched(devices, mac, at), mac, addr) <==> FullOfWeak(devices, mac, addr)
  {
    TouchFinds(devices, mac, at, mac);
  }

  /** The steps taken for an observation show what it is about. */
  lemma OpsShow(m: Model, frame: Option<Mac>, o: Observation)
    ensures Shows(m.devices, Run(m, Ops(frame, o)).devices, frame, o)
  {
    match o
    case Frame(source, at, ref) => SightedShows(m, source, None, at, ref);
    case Arp(_, sender, _, _, at, ref) => SightedShows(m, sender, Some(ArpHolding(o)), at, ref);
    case Ipv4(src, at, ref) => if Keyed(frame) { SightedShows(m, frame.value, Some((src, Seen)), at, ref); }
    case Ipv6(src, at, ref) => if Keyed(frame) { SightedShows(m, frame.value, Some((src, Seen)), at, ref); }
    case Ndp(_, _, _, _, _, at, ref) => if Keyed(frame) { SightedShows(m, frame.value, NdpHolding(o), at, ref); }
    case Lldp(source, at, ref) => SightedShows(m, source, None, at, ref);
    case Dhcp(_, _, _, _, _, _, _, _) => DhcpShows(m, frame, o);
  }

  lemma ClientShows(m: Model, o: Observation)
    requires o.Dhcp?
    ensures ShownClient(m.devices, Run(m, Sighted(o.client, DhcpHolding(o), o.at, o.ref)).devices, o)
  {
    SightedShows(m, o.client, DhcpHolding(o), o.at, o.ref);
  }

  lemma ServerShows(m: Model, frame: Option<Mac>, o: Observation)
    requires o.Dhcp?
    ensures var ops := if FromServer(o) && Keyed(frame) then Sighted(frame.value, ServerHolding(o), o.at, o.ref) else [];
            ShownServer(m.devices, Run(m, ops).devices, frame, o)
  {
    if FromServer(o) && Keyed(frame) {
      SightedShows(m, frame.value, ServerHolding(o), o.at, o.ref);
    }
  }

  lemma DhcpShows(m: Model, frame: Option<Mac>, o: Observation)
    requires o.Dhcp?
    ensures Shows(m.devices, Run(m, Ops(frame, o)).devices, frame, o)
  {
    if ValidKey(o.client) {
      var client := Sighted(o.client, DhcpHolding(o), o.at, o.ref);
      var server := if FromServer(o) && Keyed(frame) then Sighted(frame.value, ServerHolding(o), o.at, o.ref) else [];
      var between := Run(m, client);
      ClientShows(m, o);
      ServerShows(between, frame, o);
      RunConcat(m, client, server);
    }
  }

  // ---------------------------------------------------------------- who claims what

  /** The observation shows that the device of the MAC holds the address, not just that it was seen or probed for. */
  predicate Claims(frame: Option<Mac>, o: Observation, addr: Addr, mac: Mac) {
    Holdable(addr, addr.V6?) &&
    match o
    case Frame(_, _, _) => false
    case Lldp(_, _, _) => false
    case Ipv4(_, _, _) => false
    case Ipv6(_, _, _) => false
    case Arp(role, sender, senderIp, _, _, _) => ValidKey(sender) && mac == sender && addr == senderIp && !role.Probe?
    case Ndp(kind, dad, _, src, target, _, _) =>
      && Keyed(frame) && mac == frame.value
      && if kind.Advert? then addr == target else addr == src && UsableV6(src) && !kind.Redirect? && !(kind.Solicit? && dad)
    case Dhcp(_, client, _, _, _, _, _, _) => ValidKey(client) && (ClaimsLease(o, addr, mac) || ClaimsServer(frame, o, addr, mac))
  }

  predicate ClaimsLease(o: Observation, addr: Addr, mac: Mac)
    requires o.Dhcp?
  {
    o.message.Ack? && mac == o.client && addr == if o.yourIp.IsValid() && !o.yourIp.IsUnspecified() then o.yourIp else o.clientIp
  }

  predicate ClaimsServer(frame: Option<Mac>, o: Observation, addr: Addr, mac: Mac)
    requires o.Dhcp?
  {
    && (o.message.Offer? || o.message.Ack? || o.message.Nak?) && Keyed(frame) && mac == frame.value && UsableV4(addr)
    && addr == if o.serverId.IsValid() && !o.serverId.IsUnspecified() then o.serverId else o.src
  }

  predicate StrongState(s: Option<State>) {
    s.Some? && Strong(s.value)
  }

  lemma HasStrongAtPlace(list: seq<Address>, addr: Addr)
    requires DistinctAddresses(list)
    ensures HasStrong(list, addr) <==> Place(list, addr) < |list| && Strong(list[Place(list, addr)].state)
  {
    var k := Place(list, addr);
    if k < |list| {
      assert list[k] in list;
      forall a | a in list && a.addr == addr ensures a == list[k] {
        var j :| 0 <= j < |list| && list[j] == a;
      }
    }
  }

  lemma StronglyHeldAtFind(devices: seq<Device>, addr: Addr, mac: Mac)
    requires DistinctMacs(devices)
    ensures var i := Find(devices, mac);
            StronglyHeld(devices, addr, mac) <==> i < |devices| && HasStrong(AddressesOf(devices[i], addr), addr)
  {
    var i := Find(devices, mac);
    forall d | d in devices && d.mac == mac ensures i < |devices| && d == devices[i] {
      var j :| 0 <= j < |devices| && devices[j] == d;
    }
    assert i < |devices| ==> devices[i] in devices;
  }

  lemma StronglyHeldIsState(devices: seq<Device>, addr: Addr, mac: Mac)
    requires DevicesInv(devices)
    ensures StronglyHeld(devices, addr, mac) <==> StrongState(StateOf(devices, mac, addr))
  {
    StronglyHeldAtFind(devices, addr, mac);
    var i := Find(devices, mac);
    if i < |devices| {
      assert devices[i] in devices;
      HasStrongAtPlace(AddressesOf(devices[i], addr), addr);
    }
  }

  lemma HoldingClaims(before: seq<Device>, after: seq<Device>, mac: Mac, addr: Addr, state: State, a: Addr, who: Mac)
    requires ShownHolding(before, after, mac, addr, state)
    ensures StrongState(StateOf(after, who, a)) <==>
              StrongState(StateOf(before, who, a)) || (who == mac && a == addr && Holdable(a, a.V6?) && Strong(state))
  {
  }

  lemma ClientClaims(before: seq<Device>, after: seq<Device>, o: Observation, addr: Addr, mac: Mac)
    requires o.Dhcp? && ShownClient(before, after, o)
    ensures StrongState(StateOf(after, mac, addr)) <==>
              StrongState(StateOf(before, mac, addr)) || (Holdable(addr, addr.V6?) && ClaimsLease(o, addr, mac))
  {
  }

  lemma ServerClaims(before: seq<Device>, after: seq<Device>, frame: Option<Mac>, o: Observation, addr: Addr, mac: Mac)
    requires o.Dhcp? && ShownServer(before, after, frame, o)
    ensures StrongState(StateOf(after, mac, addr)) <==>
              StrongState(StateOf(before, mac, addr)) || (Holdable(addr, addr.V6?) && ClaimsServer(frame, o, addr, mac))
  {
  }

  lemma NdpClaims(before: seq<Device>, after: seq<Device>, frame: Option<Mac>, o: Observation, addr: Addr, mac: Mac)
    requires o.Ndp? && Shows(before, after, frame, o)
    ensures StrongState(StateOf(after, mac, addr)) <==> StrongState(StateOf(before, mac, addr)) || Claims(frame, o, addr, mac)
  {
  }

  lemma DhcpClaims(before: seq<Device>, after: seq<Device>, frame: Option<Mac>, o: Observation, addr: Addr, mac: Mac)
    requires o.Dhcp? && Shows(before, after, frame, o)
    ensures StrongState(StateOf(after, mac, addr)) <==> StrongState(StateOf(before, mac, addr)) || Claims(frame, o, addr, mac)
  {
    if ValidKey(o.client) {
      var between :| ShownClient(before, between, o) && ShownServer(between, after, frame, o);
      ClientClaims(before, between, o, addr, mac);
      ServerClaims(between, after, frame, o, addr, mac);
    }
  }

  lemma ShownClaims(before: seq<Device>, after: seq<Device>, frame: Option<Mac>, o: Observation, addr: Addr, mac: Mac)
    requires Shows(before, after, frame, o)
    ensures StrongState(StateOf(after, mac, addr)) <==> StrongState(StateOf(before, mac, addr)) || Claims(frame, o, addr, mac)
  {
    if o.Dhcp? {
      DhcpClaims(before, after, frame, o, addr, mac);
    } else if o.Ndp? {
      NdpClaims(before, after, frame, o, addr, mac);
    }
  }

  /** An observation makes strongly held exactly what it claims, and nothing ceases to be. */
  lemma ObservationClaims(m: Model, frame: Option<Mac>, o: Observation, addr: Addr, mac: Mac)
    requires Inv(m)
    ensures var after := Run(m, Ops(frame, o)).devices;
            StronglyHeld(after, addr, mac) <==> StronglyHeld(m.devices, addr, mac) || Claims(frame, o, addr, mac)
  {
    var after := Run(m, Ops(frame, o));
    RunKeepsInv(m, Ops(frame, o));
    OpsShow(m, frame, o);
    ShownClaims(m.devices, after.devices, frame, o, addr, mac);
    StronglyHeldIsState(m.devices, addr, mac);
    StronglyHeldIsState(after.devices, addr, mac);
  }

  /** A host that asks for an address does not claim it, whoever holds it. */
  lemma AskingClaimsNothing(m: Model, frame: Option<Mac>, o: Observation)
    requires Inv(m) && o.Arp? && o.role.Request? && o.targetIp != o.senderIp
    ensures StronglyHeld(Run(m, Ops(frame, o)).devices, o.targetIp, o.sender) <==> StronglyHeld(m.devices, o.targetIp, o.sender)
  {
    ObservationClaims(m, frame, o, o.targetIp, o.sender);
  }

  /** The usable IPv4 addresses as ranges: not 0.0.0.0, 127.0.0.0/8, 224.0.0.0/4 or the limited broadcast. */
  lemma UsableV4Ranges(v: u32)
    ensures UsableV4(V4(v)) <==>
              0 < v < 0x7f00_0000 || 0x8000_0000 <= v < 0xe000_0000 || 0xf000_0000 <= v < 0xffff_ffff
  {
  }

  lemma {:induction false} RunConcat(m: Model, xs: seq<Op>, ys: seq<Op>)
    ensures Run(m, xs + ys) == Run(Run(m, xs), ys)
    ensures Reports(m, xs + ys) == Reports(m, xs) + Reports(Run(m, xs), ys)
    decreases |xs|
  {
    if xs == [] {
      assert xs + ys == ys;
    } else {
      assert (xs + ys)[1..] == xs[1..] + ys;
      RunConcat(Do(m, xs[0]), xs[1..], ys);
    }
  }

  lemma RunOne(m: Model, op: Op)
    ensures Run(m, [op]) == Do(m, op) && Reports(m, [op]) == Report(m, op)
  {
    assert [op][1..] == [];
    assert Report(m, op) + [] == Report(m, op);
  }

  method Sight(t: Table, mac: Mac, held: Option<(Addr, State)>, at: int, ref: nat) returns (events: seq<Event>)
    requires t.Valid()
    modifies t, t.order, t.claimOrder
    ensures t.Valid()
    ensures t.model == Run(old(t.model), Sighted(mac, held, at, ref))
    ensures events == Reports(old(t.model), Sighted(mac, held, at, ref))
    ensures forall x :: x in t.order ==> x in old(t.order) || fresh(x)
    ensures forall x :: x in t.claimOrder ==> x in old(t.claimOrder) || fresh(x)
  {
    ghost var before := t.model;
    var d;
    d, events := t.Touch(mac, at);
    RunOne(before, Op.Touch(mac, at));
    if held.Some? {
      var (addr, state) := held.value;
      ghost var touched := t.model;
      var more := t.AddAddress(d, addr, state, at, ref);
      RunOne(touched, Hold(mac, addr, state, at, ref));
      RunConcat(before, [Op.Touch(mac, at)], [Hold(mac, addr, state, at, ref)]);
      events := events + more;
    }
  }

  /** Folds one observation into the table. */
  method Apply(t: Table, frame: Option<Mac>, o: Observation) returns (events: seq<Event>)
    requires t.Valid()
    modifies t, t.order, t.claimOrder
    ensures t.Valid()
    ensures t.model == Run(old(t.model), Ops(frame, o)) && events == Reports(old(t.model), Ops(frame, o))
    ensures Shows(old(t.model.devices), t.model.devices, frame, o)
  {
    OpsShow(t.model, frame, o);
    events := [];
    match o
    case Frame(source, at, ref) =>
      if ValidKey(source) {
        events := Sight(t, source, None, at, ref);
      }
    case Arp(_, sender, _, _, at, ref) =>
      if ValidKey(sender) {
        events := Sight(t, sender, Some(ArpHolding(o)), at, ref);
      }
    case Ipv4(src, at, ref) =>
      if Keyed(frame) && UsableV4(src) {
        events := Sight(t, frame.value, Some((src, Seen)), at, ref);
      }
    case Ipv6(src, at, ref) =>
      if Keyed(frame) && UsableV6(src) {
        events := Sight(t, frame.value, Some((src, Seen)), at, ref);
      }
    case Ndp(_, _, _, _, _, at, ref) =>
      if Keyed(frame) {
        events := Sight(t, frame.value, NdpHolding(o), at, ref);
      }
    case Lldp(source, at, ref) =>
      if ValidKey(source) {
        events := Sight(t, source, None, at, ref);
      }
    case Dhcp(_, client, _, _, _, _, at, ref) =>
      events := ApplyDhcp(t, frame, o);
  }

  /** Records the client by its own MAC and the server by the source of the frame. */
  method ApplyDhcp(t: Table, frame: Option<Mac>, o: Observation) returns (events: seq<Event>)
    requires t.Valid() && o.Dhcp?
    modifies t, t.order, t.claimOrder
    ensures t.Valid()
    ensures t.model == Run(old(t.model), Ops(frame, o)) && events == Reports(old(t.model), Ops(frame, o))
  {
    if !ValidKey(o.client) {
      return [];
    }
    ghost var before := t.model;
    events := Sight(t, o.client, DhcpHolding(o), o.at, o.ref);
    ghost var client := Sighted(o.client, DhcpHolding(o), o.at, o.ref);
    assert client + [] == client;
    if FromServer(o) && Keyed(frame) {
      var more := Sight(t, frame.value, ServerHolding(o), o.at, o.ref);
      RunConcat(before, client, Sighted(frame.value, ServerHolding(o), o.at, o.ref));
      events := events + more;
    }
  }

  /** Every address step follows a sighting of its device, so it is never about an unknown one. */
  lemma HoldsFollowTouch(frame: Option<Mac>, o: Observation, i: nat)
    requires i < |Ops(frame, o)| && Ops(frame, o)[i].Hold?
    ensures i > 0 && Ops(frame, o)[i - 1] == Touch(Ops(frame, o)[i].mac, Ops(frame, o)[i].at)
    ensures ValidKey(Ops(frame, o)[i].mac)
  {
  }
}
