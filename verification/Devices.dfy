/**
  The device table (internal/device/device.go) as values: which addresses each device holds in which
  state, which devices claim an address, and the events a step reports. The class DeviceTable.Table
  is proved to follow these functions.
 */
module Devices {
  import opened Bytes
  import opened NetIp
  import opened Wrappers

  type Mac = nat

  /** Address states, from the weakest to the strongest claim. */
  datatype State = Seen | Probing | Observed | Claimed | Leased

  datatype Confidence = WeakHint | StrongHint | Confirmed

  const MAX_WEAK_ADDRESSES := 16

  function Rank(s: State): nat {
    match s
    case Seen => 1
    case Probing => 1
    case Observed => 2
    case Claimed => 3
    case Leased => 3
  }

  predicate Strong(s: State) {
    Rank(s) >= Rank(Observed)
  }

  datatype Address = Address(addr: Addr, state: State, firstSeen: int, lastSeen: int, ref: nat)

  datatype Device = Device(mac: Mac, ipv4: seq<Address>, ipv6: seq<Address>, confidence: Confidence, overflow: nat,
                           firstSeen: int, lastSeen: int)

  /** The devices that claim an address, in the order they first did. */
  datatype Claim = Claim(addr: Addr, macs: seq<Mac>, refs: seq<nat>, firstSeen: int, lastSeen: int)

  datatype Model = Model(devices: seq<Device>, claims: seq<Claim>)

  datatype Event = NewDevice(mac: Mac) | Update(mac: Mac, addr: Addr) | AddressConflict(addr: Addr, macs: seq<Mac>)

  const EMPTY := Model([], [])

  function Later(a: int, b: int): int {
    if b > a then b else a
  }

  // ---------------------------------------------------------------- one address list

  function Place(list: seq<Address>, addr: Addr): (r: nat)
    ensures r <= |list| && (forall k :: 0 <= k < r ==> list[k].addr != addr) && (r < |list| ==> list[r].addr == addr)
  {
    IndexWhere(list, (a: Address) => a.addr == addr)
  }

  function SeenCount(list: seq<Address>): nat
    decreases |list|
  {
    if list == [] then 0
    else SeenCount(list[..|list| - 1]) + if list[|list| - 1].state.Seen? then 1 else 0
  }

  /** The list after a sighting, and whether it is new or stronger, or dropped because the list is full of weak ones. */
  datatype Noted = Noted(list: seq<Address>, stronger: bool, dropped: bool)

  function NoteAddress(list: seq<Address>, addr: Addr, state: State, at: int, ref: nat): Noted {
    var i := Place(list, addr);
    if i < |list| then
      var a := list[i].(lastSeen := Later(list[i].lastSeen, at));
      if Rank(state) <= Rank(a.state) then Noted(list[i := a], false, false)
      else Noted(list[i := a.(state := state, ref := ref)], true, false)
    else if state.Seen? && SeenCount(list) >= MAX_WEAK_ADDRESSES then Noted(list, false, true)
    else Noted(list + [Address(addr, state, at, at, ref)], true, false)
  }

  predicate DistinctAddresses(list: seq<Address>) {
    forall i, j :: 0 <= i < j < |list| ==> list[i].addr != list[j].addr
  }

  /** An address of one family that a device can hold. */
  predicate Holdable(addr: Addr, v6: bool) {
    addr.IsValid() && !addr.IsUnspecified() && addr.V6? == v6
  }

  predicate AllHoldable(list: seq<Address>, v6: bool) {
    forall a :: a in list ==> Holdable(a.addr, v6)
  }

  predicate ListInv(list: seq<Address>) {
    DistinctAddresses(list) && SeenCount(list) <= MAX_WEAK_ADDRESSES
  }

  predicate HasStrong(list: seq<Address>, addr: Addr) {
    exists a :: a in list && a.addr == addr && Strong(a.state)
  }

  lemma {:induction false} SeenCountUpdate(list: seq<Address>, i: nat, a: Address)
    requires i < |list|
    ensures SeenCount(list[i := a]) ==
              SeenCount(list) - (if list[i].state.Seen? then 1 else 0) + (if a.state.Seen? then 1 else 0)
    decreases |list|
  {
    var n := |list| - 1;
    if i == n {
      assert list[i := a][..n] == list[..n];
    } else {
      SeenCountUpdate(list[..n], i, a);
      assert list[i := a][..n] == list[..n][i := a];
    }
  }

  /** No address leaves its place or becomes weaker, and the first and last sightings stay in order. */
  predicate Grows(list: seq<Address>, list': seq<Address>) {
    && |list| <= |list'|
    && forall i :: 0 <= i < |list| ==> list'[i].addr == list[i].addr && Rank(list'[i].state) >= Rank(list[i].state)
                                       && list'[i].firstSeen == list[i].firstSeen && list'[i].lastSeen >= list[i].lastSeen
  }

  lemma UpdatePreservesList(list: seq<Address>, i: nat, a: Address)
    requires ListInv(list) && i < |list|
    requires a.addr == list[i].addr && Rank(a.state) >= Rank(list[i].state) && (a.state.Seen? ==> list[i].state.Seen?)
    requires a.firstSeen == list[i].firstSeen && a.lastSeen >= list[i].lastSeen
    ensures ListInv(list[i := a]) && Grows(list, list[i := a])
  {
    SeenCountUpdate(list, i, a);
  }

  lemma AppendPreservesList(list: seq<Address>, a: Address)
    requires ListInv(list) && (forall k :: 0 <= k < |list| ==> list[k].addr != a.addr)
    requires a.state.Seen? ==> SeenCount(list) < MAX_WEAK_ADDRESSES
    ensures ListInv(list + [a]) && Grows(list, list + [a])
  {
    assert (list + [a])[..|list|] == list;
  }

  lemma NotePreservesList(list: seq<Address>, addr: Addr, state: State, at: int, ref: nat)
    requires ListInv(list)
    ensures ListInv(NoteAddress(list, addr, state, at, ref).list)
    ensures Grows(list, NoteAddress(list, addr, state, at, ref).list)
  {
    var i := Place(list, addr);
    var r := NoteAddress(list, addr, state, at, ref);
    if i < |list| {
      UpdatePreservesList(list, i, r.list[i]);
      assert r.list == list[i := r.list[i]];
    } else if !r.dropped {
      AppendPreservesList(list, Address(addr, state, at, at, ref));
    } else {
      GrowsHere(list);
    }
  }

  lemma NoteKeepsHoldable(list: seq<Address>, addr: Addr, state: State, at: int, ref: nat, v6: bool)
    requires AllHoldable(list, v6) && Holdable(addr, v6)
    ensures AllHoldable(NoteAddress(list, addr, state, at, ref).list, v6)
  {
    var r := NoteAddress(list, addr, state, at, ref);
    forall k | 0 <= k < |r.list| ensures Holdable(r.list[k].addr, v6) {
      if k < |list| {
        assert list[k] in list && r.list[k].addr == list[k].addr;
      }
    }
  }

  /** An address counts as strongly held after a sighting if it was before or the sighting is strong and changed the list. */
  lemma NoteStrong(list: seq<Address>, addr: Addr, state: State, at: int, ref: nat, other: Addr)
    requires DistinctAddresses(list)
    ensures var r := NoteAddress(list, addr, state, at, ref);
            && (HasStrong(r.list, other) <==> HasStrong(list, other) || (other == addr && Strong(state)))
            && (Strong(state) && !r.stronger ==> HasStrong(list, addr))
  {
    var i := Place(list, addr);
    var r := NoteAddress(list, addr, state, at, ref);
    if i < |list| {
      assert r.list[i].addr == addr && list[i] in list && r.list[i] in r.list;
      forall k | 0 <= k < |list| && k != i ensures r.list[k] == list[k] {
      }
      if HasStrong(list, other) {
        var k :| 0 <= k < |list| && list[k].addr == other && Strong(list[k].state);
        assert r.list[k] in r.list;
      }
    } else if !r.dropped {
      assert r.list[|list|] in r.list;
      assert forall a :: a in list ==> a in r.list;
    }
  }

  // ---------------------------------------------------------------- one device

  function AddressesOf(d: Device, addr: Addr): seq<Address> {
    if addr.V6? then d.ipv6 else d.ipv4
  }

  function Raised(c: Confidence, state: State): Confidence {
    if Strong(state) then Confirmed else if c.WeakHint? then StrongHint else c
  }

  /** The device after one of its address lists was updated. */
  function WithNoted(d: Device, v6: bool, state: State, r: Noted): Device {
    var d1 := if v6 then d.(ipv6 := r.list) else d.(ipv4 := r.list);
    if r.dropped then d1.(overflow := d.overflow + 1)
    else if r.stronger then d1.(confidence := Raised(d.confidence, state))
    else d1
  }

  function DeviceNoted(d: Device, addr: Addr, state: State, at: int, ref: nat): Device {
    WithNoted(d, addr.V6?, state, NoteAddress(AddressesOf(d, addr), addr, state, at, ref))
  }

  predicate AnyStrong(list: seq<Address>) {
    exists a :: a in list && Strong(a.state)
  }

  /** Confirmed means some address is strongly held, a strong hint some address but none strongly, a weak hint none. */
  predicate ConfidenceInv(d: Device) {
    && (d.confidence.Confirmed? <==> AnyStrong(d.ipv4) || AnyStrong(d.ipv6))
    && (d.confidence.WeakHint? <==> |d.ipv4| == 0 && |d.ipv6| == 0)
  }

  predicate DeviceInv(d: Device) {
    ListInv(d.ipv4) && ListInv(d.ipv6) && ConfidenceInv(d)
  }

  predicate DeviceHoldable(d: Device) {
    AllHoldable(d.ipv4, false) && AllHoldable(d.ipv6, true)
  }

  predicate DeviceGrows(d: Device, d': Device) {
    && d'.mac == d.mac && Grows(d.ipv4, d'.ipv4) && Grows(d.ipv6, d'.ipv6)
    && d'.firstSeen == d.firstSeen && d'.lastSeen >= d.lastSeen
    && (d.confidence.Confirmed? ==> d'.confidence.Confirmed?) && (d'.confidence.WeakHint? ==> d.confidence.WeakHint?)
  }

  lemma NoteAnyStrong(list: seq<Address>, addr: Addr, state: State, at: int, ref: nat)
    ensures var r := NoteAddress(list, addr, state, at, ref);
            && (AnyStrong(r.list) <==> AnyStrong(list) || (r.stronger && Strong(state)))
            && (|r.list| == 0 <==> |list| == 0 && !r.stronger)
            && (|list| == 0 ==> !r.dropped)
  {
    var i := Place(list, addr);
    var r := NoteAddress(list, addr, state, at, ref);
    forall k | 0 <= k < |list| && k != i ensures r.list[k] == list[k] && list[k] in list && r.list[k] in r.list {
    }
    if i < |r.list| {
      assert r.list[i] in r.list;
    }
    if AnyStrong(list) {
      var k :| 0 <= k < |list| && Strong(list[k].state);
      assert r.list[k] in r.list && Strong(r.list[k].state);
    }
  }

  lemma NotedKeepsConfidence(d: Device, addr: Addr, state: State, at: int, ref: nat)
    requires ConfidenceInv(d)
    ensures ConfidenceInv(DeviceNoted(d, addr, state, at, ref))
  {
    NoteAnyStrong(AddressesOf(d, addr), addr, state, at, ref);
  }

  lemma GrowsHere(list: seq<Address>)
    ensures Grows(list, list)
  {
  }

  lemma NotedGrows(d: Device, addr: Addr, state: State, at: int, ref: nat)
    requires ListInv(AddressesOf(d, addr))
    ensures DeviceGrows(d, DeviceNoted(d, addr, state, at, ref))
  {
    NotePreservesList(AddressesOf(d, addr), addr, state, at, ref);
    GrowsHere(if addr.V6? then d.ipv4 else d.ipv6);
  }

  lemma NotedKeepsDevice(d: Device, addr: Addr, state: State, at: int, ref: nat)
    requires DeviceInv(d)
    ensures DeviceInv(DeviceNoted(d, addr, state, at, ref))
  {
    NotePreservesList(AddressesOf(d, addr), addr, state, at, ref);
    NotedKeepsConfidence(d, addr, state, at, ref);
  }

  // ---------------------------------------------------------------- claims

  function ClaimPlace(claims: seq<Claim>, addr: Addr): (r: nat)
    ensures r <= |claims| && (forall k :: 0 <= k < r ==> claims[k].addr != addr) && (r < |claims| ==> claims[r].addr == addr)
  {
    IndexWhere(claims, (c: Claim) => c.addr == addr)
  }

  /** The devices on record as claiming an address. */
  function Claimants(claims: seq<Claim>, addr: Addr): seq<Mac> {
    var i := ClaimPlace(claims, addr);
    if i < |claims| then claims[i].macs else []
  }

  function ClaimNoted(c: Claim, mac: Mac, at: int, ref: nat): Claim {
    if mac in c.macs then c.(lastSeen := at) else c.(lastSeen := at, macs := c.macs + [mac], refs := c.refs + [ref])
  }

  function NoteClaim(claims: seq<Claim>, addr: Addr, mac: Mac, at: int, ref: nat): seq<Claim> {
    var i := ClaimPlace(claims, addr);
    if i < |claims| then claims[i := ClaimNoted(claims[i], mac, at, ref)]
    else claims + [Claim(addr, [mac], [ref], at, at)]
  }

  predicate NoDuplicates(macs: seq<Mac>) {
    forall i, j :: 0 <= i < j < |macs| ==> macs[i] != macs[j]
  }

  predicate ClaimsInv(claims: seq<Claim>) {
    && (forall i, j :: 0 <= i < j < |claims| ==> claims[i].addr != claims[j].addr)
    && forall c :: c in claims ==> NoDuplicates(c.macs) && |c.macs| > 0 && |c.refs| == |c.macs|
  }

  /** A second and every later claimant of an address is a conflict. */
  function ConflictOf(claims: seq<Claim>, addr: Addr, mac: Mac): seq<Event> {
    var macs := Claimants(claims, addr);
    if mac in macs || |macs| == 0 then [] else [AddressConflict(addr, macs + [mac])]
  }

  lemma PlaceUnique(claims: seq<Claim>, i: nat)
    requires ClaimsInv(claims) && i < |claims|
    ensures ClaimPlace(claims, claims[i].addr) == i
  {
  }

  lemma NoteKeepsClaims(claims: seq<Claim>, addr: Addr, mac: Mac, at: int, ref: nat)
    requires ClaimsInv(claims)
    ensures ClaimsInv(NoteClaim(claims, addr, mac, at, ref))
  {
    var i := ClaimPlace(claims, addr);
    var next := NoteClaim(claims, addr, mac, at, ref);
    forall c | c in next ensures NoDuplicates(c.macs) && |c.macs| > 0 && |c.refs| == |c.macs| {
      var k :| 0 <= k < |next| && next[k] == c;
      if k < |claims| {
        assert claims[k] in claims;
      }
    }
  }

  lemma NoteClaimClaimants(claims: seq<Claim>, addr: Addr, mac: Mac, at: int, ref: nat, other: Addr)
    requires ClaimsInv(claims)
    ensures Claimants(NoteClaim(claims, addr, mac, at, ref), other) ==
              if other == addr && mac !in Claimants(claims, addr) then Claimants(claims, addr) + [mac] else Claimants(claims, other)
  {
    var i := ClaimPlace(claims, addr);
    var j := ClaimPlace(claims, other);
    var next := NoteClaim(claims, addr, mac, at, ref);
    NoteKeepsClaims(claims, addr, mac, at, ref);
    if j < |claims| {
      PlaceUnique(next, j);
    } else if other == addr {
      PlaceUnique(next, i);
    } else {
      assert forall k :: 0 <= k < |next| ==> next[k].addr != other;
    }
  }

  // ---------------------------------------------------------------- the table

  function Find(devices: seq<Device>, mac: Mac): (r: nat)
    ensures r <= |devices| && (forall k :: 0 <= k < r ==> devices[k].mac != mac) && (r < |devices| ==> devices[r].mac == mac)
  {
    IndexWhere(devices, (d: Device) => d.mac == mac)
  }

  /** The device for a MAC, created on first sight, with its last sighting advanced. */
  function Touched(devices: seq<Device>, mac: Mac, at: int): seq<Device> {
    var i := Find(devices, mac);
    if i < |devices| then devices[i := devices[i].(lastSeen := Later(devices[i].lastSeen, at))]
    else devices + [Device(mac, [], [], WeakHint, 0, at, at)]
  }

  predicate Stronger(d: Device, addr: Addr, state: State, at: int, ref: nat) {
    NoteAddress(AddressesOf(d, addr), addr, state, at, ref).stronger
  }

  /** A step of the table: a device is seen, or a known device is seen with an address. */
  datatype Op = Touch(mac: Mac, at: int) | Hold(mac: Mac, addr: Addr, state: State, at: int, ref: nat)

  /** A sighting that makes the address new or stronger is reported, and if it is strong it is also a claim. */
  function Do(m: Model, op: Op): Model {
    match op
    case Touch(mac, at) => m.(devices := Touched(m.devices, mac, at))
    case Hold(mac, addr, state, at, ref) =>
      var i := Find(m.devices, mac);
      if i == |m.devices| || !Holdable(addr, addr.V6?) then m
      else
        var d := m.devices[i];
        Model(m.devices[i := DeviceNoted(d, addr, state, at, ref)],
              if Stronger(d, addr, state, at, ref) && Strong(state) then NoteClaim(m.claims, addr, mac, at, ref) else m.claims)
  }

  function Report(m: Model, op: Op): seq<Event> {
    match op
    case Touch(mac, at) => if Find(m.devices, mac) == |m.devices| then [NewDevice(mac)] else []
    case Hold(mac, addr, state, at, ref) =>
      var i := Find(m.devices, mac);
      if i == |m.devices| || !Holdable(addr, addr.V6?) || !Stronger(m.devices[i], addr, state, at, ref) then []
      else [Update(mac, addr)] + if Strong(state) then ConflictOf(m.claims, addr, mac) else []
  }

  function Run(m: Model, ops: seq<Op>): Model
    decreases |ops|
  {
    if ops == [] then m else Run(Do(m, ops[0]), ops[1..])
  }

  function Reports(m: Model, ops: seq<Op>): seq<Event>
    decreases |ops|
  {
    if ops == [] then [] else Report(m, ops[0]) + Reports(Do(m, ops[0]), ops[1..])
  }

  predicate DistinctMacs(devices: seq<Device>) {
    forall i, j :: 0 <= i < j < |devices| ==> devices[i].mac != devices[j].mac
  }

  /** The device holds the address in a strong state. */
  predicate StronglyHeld(devices: seq<Device>, addr: Addr, mac: Mac) {
    exists d :: d in devices && d.mac == mac && HasStrong(AddressesOf(d, addr), addr)
  }

  predicate DevicesInv(devices: seq<Device>) {
    DistinctMacs(devices) && forall d :: d in devices ==> DeviceInv(d)
  }

  predicate AllDevicesHoldable(devices: seq<Device>) {
    forall d :: d in devices ==> DeviceHoldable(d)
  }

  /** The two indexes agree: the claimants of an address are the devices that hold it strongly. */
  ghost predicate Agreement(m: Model) {
    forall addr, mac :: mac in Claimants(m.claims, addr) <==> StronglyHeld(m.devices, addr, mac)
  }

  ghost predicate Inv(m: Model) {
    DevicesInv(m.devices) && ClaimsInv(m.claims) && Agreement(m)
  }

  lemma ReplacedInv(devices: seq<Device>, i: nat, d: Device)
    requires DevicesInv(devices) && i < |devices| && DeviceInv(d) && d.mac == devices[i].mac
    ensures DevicesInv(devices[i := d])
  {
    forall x | x in devices[i := d] ensures DeviceInv(x) {
      var k :| 0 <= k < |devices| && devices[i := d][k] == x;
      assert k != i ==> x in devices;
    }
  }

  lemma ReplacedHeld(devices: seq<Device>, i: nat, d: Device, addr: Addr, mac: Mac)
    requires DistinctMacs(devices) && i < |devices| && d.mac == devices[i].mac
    ensures StronglyHeld(devices[i := d], addr, mac) <==>
              if mac == d.mac then HasStrong(AddressesOf(d, addr), addr) else StronglyHeld(devices, addr, mac)
    ensures mac == d.mac ==> (StronglyHeld(devices, addr, mac) <==> HasStrong(AddressesOf(devices[i], addr), addr))
  {
    var next := devices[i := d];
    assert next[i] == d && d in next && devices[i] in devices;
    forall k | 0 <= k < |devices| && k != i ensures next[k] == devices[k] && next[k] in next && devices[k].mac != d.mac {
      assert k < i ==> devices[k].mac != devices[i].mac;
    }
    if mac != d.mac && StronglyHeld(devices, addr, mac) {
      var k :| 0 <= k < |devices| && devices[k].mac == mac && HasStrong(AddressesOf(devices[k], addr), addr);
      assert next[k] in next;
    }
  }

  lemma TouchKeepsInv(m: Model, mac: Mac, at: int)
    requires Inv(m)
    ensures Inv(Do(m, Touch(mac, at)))
  {
    var i := Find(m.devices, mac);
    var next := Touched(m.devices, mac, at);
    if i < |m.devices| {
      assert m.devices[i] in m.devices;
      ReplacedInv(m.devices, i, next[i]);
      forall addr, other ensures StronglyHeld(next, addr, other) <==> StronglyHeld(m.devices, addr, other) {
        ReplacedHeld(m.devices, i, next[i], addr, other);
      }
    } else {
      var d := Device(mac, [], [], WeakHint, 0, at, at);
      assert next == m.devices + [d];
      forall addr, other ensures StronglyHeld(next, addr, other) <==> StronglyHeld(m.devices, addr, other) {
        assert forall x :: x in next <==> x in m.devices || x == d;
      }
    }
  }

  /** What a sighting does to the strong holders of every address. */
  lemma HoldHeld(m: Model, mac: Mac, addr: Addr, state: State, at: int, ref: nat, other: Addr, who: Mac)
    requires DevicesInv(m.devices) && Find(m.devices, mac) < |m.devices| && Holdable(addr, addr.V6?)
    ensures StronglyHeld(Do(m, Hold(mac, addr, state, at, ref)).devices, other, who) <==>
              StronglyHeld(m.devices, other, who) || (who == mac && other == addr && Strong(state))
    ensures Strong(state) && !Stronger(m.devices[Find(m.devices, mac)], addr, state, at, ref) ==> StronglyHeld(m.devices, addr, mac)
  {
    var i := Find(m.devices, mac);
    var d := m.devices[i];
    assert d in m.devices;
    var next := DeviceNoted(d, addr, state, at, ref);
    ReplacedHeld(m.devices, i, next, other, who);
    NoteStrong(AddressesOf(d, addr), addr, state, at, ref, other);
  }

  predicate Takes(m: Model, mac: Mac, addr: Addr) {
    Find(m.devices, mac) < |m.devices| && Holdable(addr, addr.V6?)
  }

  lemma HoldAgrees(m: Model, mac: Mac, addr: Addr, state: State, at: int, ref: nat, other: Addr, who: Mac)
    requires Inv(m) && Takes(m, mac, addr)
    ensures var next := Do(m, Hold(mac, addr, state, at, ref));
            who in Claimants(next.claims, other) <==> StronglyHeld(next.devices, other, who)
  {
    HoldHeld(m, mac, addr, state, at, ref, other, who);
    NoteClaimClaimants(m.claims, addr, mac, at, ref, other);
  }

  lemma HoldKeepsDevices(devices: seq<Device>, i: nat, addr: Addr, state: State, at: int, ref: nat)
    requires DevicesInv(devices) && i < |devices|
    ensures DevicesInv(devices[i := DeviceNoted(devices[i], addr, state, at, ref)])
  {
    assert devices[i] in devices;
    NotedKeepsDevice(devices[i], addr, state, at, ref);
    ReplacedInv(devices, i, DeviceNoted(devices[i], addr, state, at, ref));
  }

  lemma HoldKeepsInv(m: Model, mac: Mac, addr: Addr, state: State, at: int, ref: nat)
    requires Inv(m)
    ensures Inv(Do(m, Hold(mac, addr, state, at, ref)))
  {
    if Takes(m, mac, addr) {
      HoldKeepsDevices(m.devices, Find(m.devices, mac), addr, state, at, ref);
      NoteKeepsClaims(m.claims, addr, mac, at, ref);
      var next := Do(m, Hold(mac, addr, state, at, ref));
      forall other, who ensures who in Claimants(next.claims, other) <==> StronglyHeld(next.devices, other, who) {
        HoldAgrees(m, mac, addr, state, at, ref, other, who);
      }
    }
  }

  lemma StepKeepsInv(m: Model, op: Op)
    requires Inv(m)
    ensures Inv(Do(m, op))
  {
    match op
    case Touch(mac, at) => TouchKeepsInv(m, mac, at);
    case Hold(mac, addr, state, at, ref) => HoldKeepsInv(m, mac, addr, state, at, ref);
  }

  lemma {:induction false} RunKeepsInv(m: Model, ops: seq<Op>)
    requires Inv(m)
    ensures Inv(Run(m, ops))
    decreases |ops|
  {
    if ops == [] {
    } else {
      StepKeepsInv(m, ops[0]);
      RunKeepsInv(Do(m, ops[0]), ops[1..]);
    }
  }

  // ---------------------------------------------------------------- main results over whole runs

  /** How many conflicts about an address were reported. */
  function Conflicts(events: seq<Event>, addr: Addr): nat
    decreases |events|
  {
    if events == [] then 0
    else (if events[0].AddressConflict? && events[0].addr == addr then 1 else 0) + Conflicts(events[1..], addr)
  }

  lemma {:induction false} ConflictsConcat(xs: seq<Event>, ys: seq<Event>, addr: Addr)
    ensures Conflicts(xs + ys, addr) == Conflicts(xs, addr) + Conflicts(ys, addr)
    decreases |xs|
  {
    if xs == [] {
      assert xs + ys == ys;
    } else {
      assert (xs + ys)[1..] == xs[1..] + ys;
      ConflictsConcat(xs[1..], ys, addr);
    }
  }

  function Beyond1(n: nat): nat {
    if n == 0 then 0 else n - 1
  }

  /** A claim is reported as a conflict exactly if it adds a claimant to one or more. */
  lemma ClaimConflicts(claims: seq<Claim>, a: Addr, mac: Mac, at: int, ref: nat, addr: Addr)
    requires ClaimsInv(claims)
    ensures Beyond1(|Claimants(NoteClaim(claims, a, mac, at, ref), addr)|)
         == Beyond1(|Claimants(claims, addr)|) + Conflicts(ConflictOf(claims, a, mac), addr)
  {
    NoteClaimClaimants(claims, a, mac, at, ref, addr);
    var events := ConflictOf(claims, a, mac);
    assert |events| == 1 ==> events[1..] == [];
  }

  lemma UpdateFirst(mac: Mac, a: Addr, rest: seq<Event>, addr: Addr)
    ensures Conflicts([Update(mac, a)] + rest, addr) == Conflicts(rest, addr)
  {
    assert ([Update(mac, a)] + rest)[1..] == rest;
  }

  lemma StepConflicts(m: Model, op: Op, addr: Addr)
    requires ClaimsInv(m.claims)
    ensures Beyond1(|Claimants(Do(m, op).claims, addr)|) == Beyond1(|Claimants(m.claims, addr)|) + Conflicts(Report(m, op), addr)
  {
    if op.Touch? {
      assert [NewDevice(op.mac)][1..] == [];
    } else if Takes(m, op.mac, op.addr) && Stronger(m.devices[Find(m.devices, op.mac)], op.addr, op.state, op.at, op.ref) {
      if Strong(op.state) {
        ClaimConflicts(m.claims, op.addr, op.mac, op.at, op.ref, addr);
        UpdateFirst(op.mac, op.addr, ConflictOf(m.claims, op.addr, op.mac), addr);
      } else {
        UpdateFirst(op.mac, op.addr, [], addr);
      }
    }
  }

  /** Over a whole run, an address with k claimants has been reported as a conflict exactly max(0, k - 1) times. */
  lemma {:induction false} ConflictsReported(m: Model, ops: seq<Op>, addr: Addr)
    requires Inv(m)
    ensures Beyond1(|Claimants(Run(m, ops).claims, addr)|) == Beyond1(|Claimants(m.claims, addr)|) + Conflicts(Reports(m, ops), addr)
    decreases |ops|
  {
    if ops == [] {
    } else {
      StepConflicts(m, ops[0], addr);
      StepKeepsInv(m, ops[0]);
      ConflictsReported(Do(m, ops[0]), ops[1..], addr);
      ConflictsConcat(Report(m, ops[0]), Reports(Do(m, ops[0]), ops[1..]), addr);
    }
  }

  lemma EmptyInv()
    ensures Inv(EMPTY)
  {
  }

  /** The addresses Conflicts lists: those with more than one claimant. */
  function Conflicting(claims: seq<Claim>): seq<Claim>
    decreases |claims|
  {
    if claims == [] then []
    else
      var n := |claims| - 1;
      Conflicting(claims[..n]) + if |claims[n].macs| > 1 then [claims[n]] else []
  }

  lemma {:induction false} ConflictingExactly(claims: seq<Claim>, c: Claim)
    ensures c in Conflicting(claims) <==> c in claims && |c.macs| > 1
    decreases |claims|
  {
    if claims == [] {
    } else {
      var n := |claims| - 1;
      assert claims == claims[..n] + [claims[n]];
      ConflictingExactly(claims[..n], c);
    }
  }

  /** Two different devices hold the address strongly. */
  ghost predicate Contested(devices: seq<Device>, addr: Addr) {
    exists a, b :: a != b && StronglyHeld(devices, addr, a) && StronglyHeld(devices, addr, b)
  }

  lemma ManyClaimants(m: Model, addr: Addr)
    requires ClaimsInv(m.claims) && Agreement(m)
    ensures Contested(m.devices, addr) <==> |Claimants(m.claims, addr)| > 1
  {
    var macs := Claimants(m.claims, addr);
    if |macs| > 1 {
      var i := ClaimPlace(m.claims, addr);
      assert m.claims[i] in m.claims;
      assert macs[0] in macs && macs[1] in macs && macs[0] != macs[1];
    }
    if a, b :| a != b && StronglyHeld(m.devices, addr, a) && StronglyHeld(m.devices, addr, b) {
      TwoMembers(macs, a, b);
    }
  }

  lemma TwoMembers(macs: seq<Mac>, a: Mac, b: Mac)
    requires a in macs && b in macs && a != b
    ensures |macs| > 1
  {
    var i :| 0 <= i < |macs| && macs[i] == a;
    var j :| 0 <= j < |macs| && macs[j] == b;
  }

  lemma ListedConflicts(claims: seq<Claim>, addr: Addr)
    requires ClaimsInv(claims)
    ensures (exists c :: c in Conflicting(claims) && c.addr == addr) <==> |Claimants(claims, addr)| > 1
  {
    var i := ClaimPlace(claims, addr);
    if |Claimants(claims, addr)| > 1 {
      ConflictingExactly(claims, claims[i]);
    }
    if c :| c in Conflicting(claims) && c.addr == addr {
      ConflictingExactly(claims, c);
      var k :| 0 <= k < |claims| && claims[k] == c;
      PlaceUnique(claims, k);
    }
  }

  /**
    In every reachable table the claimants of an address are, without duplicates, exactly the devices
    that hold it strongly, and the conflicts listed are exactly about the addresses two devices hold.
   */
  lemma ClaimIndexAgrees(ops: seq<Op>, addr: Addr)
    ensures var m := Run(EMPTY, ops);
            && NoDuplicates(Claimants(m.claims, addr))
            && (forall mac :: mac in Claimants(m.claims, addr) <==> StronglyHeld(m.devices, addr, mac))
            && ((exists c :: c in Conflicting(m.claims) && c.addr == addr) <==> Contested(m.devices, addr))
            && Conflicts(Reports(EMPTY, ops), addr) == Beyond1(|Claimants(m.claims, addr)|)
  {
    var m := Run(EMPTY, ops);
    EmptyInv();
    RunKeepsInv(EMPTY, ops);
    ConflictsReported(EMPTY, ops, addr);
    ManyClaimants(m, addr);
    ListedConflicts(m.claims, addr);
    ClaimantsDistinct(m.claims, addr);
  }

  lemma ClaimantsDistinct(claims: seq<Claim>, addr: Addr)
    requires ClaimsInv(claims)
    ensures NoDuplicates(Claimants(claims, addr))
  {
    var i := ClaimPlace(claims, addr);
    assert i < |claims| ==> claims[i] in claims;
  }

  /** Every device of a reachable table lists each address once, has few weak ones and the confidence its addresses justify. */
  lemma AddressStates(ops: seq<Op>, d: Device)
    requires d in Run(EMPTY, ops).devices
    ensures DistinctAddresses(d.ipv4) && DistinctAddresses(d.ipv6)
    ensures SeenCount(d.ipv4) <= MAX_WEAK_ADDRESSES && SeenCount(d.ipv6) <= MAX_WEAK_ADDRESSES
    ensures d.confidence.Confirmed? <==> AnyStrong(d.ipv4) || AnyStrong(d.ipv6)
    ensures d.confidence.WeakHint? <==> d.ipv4 == [] && d.ipv6 == []
  {
    EmptyInv();
    RunKeepsInv(EMPTY, ops);
  }

  predicate DevicesGrow(devices: seq<Device>, devices': seq<Device>) {
    |devices| <= |devices'| && forall i :: 0 <= i < |devices| ==> DeviceGrows(devices[i], devices'[i])
  }

  lemma DeviceGrowsHere(d: Device)
    ensures DeviceGrows(d, d)
  {
  }

  lemma DeviceGrowsOn(a: Device, b: Device, c: Device)
    requires DeviceGrows(a, b) && DeviceGrows(b, c)
    ensures DeviceGrows(a, c)
  {
  }

  lemma StepGrows(m: Model, op: Op)
    requires Inv(m)
    ensures DevicesGrow(m.devices, Do(m, op).devices)
  {
    var next := Do(m, op).devices;
    forall k | 0 <= k < |m.devices| ensures k < |next| && DeviceGrows(m.devices[k], next[k]) {
      DeviceGrowsHere(m.devices[k]);
      assert m.devices[k] in m.devices;
      if op.Hold? && k == Find(m.devices, op.mac) {
        NotedGrows(m.devices[k], op.addr, op.state, op.at, op.ref);
      }
    }
  }

  /** No run removes a device or an address, or makes a claim or a confirmation weaker. */
  lemma {:induction false} RunGrows(m: Model, ops: seq<Op>)
    requires Inv(m)
    ensures DevicesGrow(m.devices, Run(m, ops).devices)
    decreases |ops|
  {
    if ops == [] {
      forall d | d in m.devices ensures DeviceGrows(d, d) {
        DeviceGrowsHere(d);
      }
    } else {
      var next := Do(m, ops[0]);
      StepGrows(m, ops[0]);
      StepKeepsInv(m, ops[0]);
      RunGrows(next, ops[1..]);
      var last := Run(m, ops).devices;
      forall i | 0 <= i < |m.devices| ensures DeviceGrows(m.devices[i], last[i]) {
        DeviceGrowsOn(m.devices[i], next.devices[i], last[i]);
      }
    }
  }

  lemma NotedKeepsHoldable(d: Device, addr: Addr, state: State, at: int, ref: nat)
    requires DeviceHoldable(d) && Holdable(addr, addr.V6?)
    ensures DeviceHoldable(DeviceNoted(d, addr, state, at, ref))
  {
    NoteKeepsHoldable(AddressesOf(d, addr), addr, state, at, ref, addr.V6?);
  }

  lemma StepKeepsHoldable(m: Model, op: Op)
    requires AllDevicesHoldable(m.devices)
    ensures AllDevicesHoldable(Do(m, op).devices)
  {
    var next := Do(m, op).devices;
    forall k | 0 <= k < |next| ensures DeviceHoldable(next[k]) {
      if k < |m.devices| {
        assert m.devices[k] in m.devices;
        if op.Hold? && k == Find(m.devices, op.mac) && Takes(m, op.mac, op.addr) {
          NotedKeepsHoldable(m.devices[k], op.addr, op.state, op.at, op.ref);
        }
      }
    }
  }

  lemma {:induction false} RunKeepsHoldable(m: Model, ops: seq<Op>)
    requires AllDevicesHoldable(m.devices)
    ensures AllDevicesHoldable(Run(m, ops).devices)
    decreases |ops|
  {
    if ops == [] {
    } else {
      StepKeepsHoldable(m, ops[0]);
      RunKeepsHoldable(Do(m, ops[0]), ops[1..]);
    }
  }

  /** In every reachable table each list holds valid, specified addresses of its own family and nothing else. */
  lemma AddressFamilies(ops: seq<Op>)
    ensures AllDevicesHoldable(Run(EMPTY, ops).devices)
  {
    RunKeepsHoldable(EMPTY, ops);
  }

  // ---------------------------------------------------------------- when a device was seen

  /** The first and last sighting on a device's record. */
  function SeenAt(devices: seq<Device>, mac: Mac): Option<(int, int)> {
    var i := Find(devices, mac);
    if i < |devices| then Some((devices[i].firstSeen, devices[i].lastSeen)) else None
  }

  /** The times at which a run sees a device. */
  function TimesSeen(ops: seq<Op>, mac: Mac): seq<int> {
    if ops == [] then [] else (if ops[0].Touch? && ops[0].mac == mac then [ops[0].at] else []) + TimesSeen(ops[1..], mac)
  }

  function Latest(times: seq<int>): int
    requires times != []
    decreases |times|
  {
    if |times| == 1 then times[0] else Later(times[0], Latest(times[1..]))
  }

  lemma {:induction false} LatestIsGreatest(times: seq<int>)
    requires times != []
    ensures Latest(times) in times && forall t :: t in times ==> t <= Latest(times)
    decreases |times|
  {
    if |times| == 1 {
    } else {
      LatestIsGreatest(times[1..]);
      assert forall t :: t in times <==> t == times[0] || t in times[1..];
    }
  }

  /** What further sightings make of a record. */
  function SeenMore(seen: Option<(int, int)>, times: seq<int>): Option<(int, int)> {
    if times == [] then seen
    else
      match seen
      case None => Some((times[0], Latest(times)))
      case Some((first, last)) => Some((first, Later(last, Latest(times))))
  }

  lemma SeenOnceMore(seen: Option<(int, int)>, at: int, times: seq<int>)
    ensures SeenMore(SeenMore(seen, [at]), times) == SeenMore(seen, [at] + times)
  {
    assert ([at] + times)[1..] == times;
  }

  lemma TouchSeen(devices: seq<Device>, mac: Mac, at: int, who: Mac)
    ensures SeenAt(Touched(devices, mac, at), who) ==
              if who == mac then SeenMore(SeenAt(devices, who), [at]) else SeenAt(devices, who)
  {
    var next := Touched(devices, mac, at);
    var i := Find(devices, mac);
    if i < |devices| {
      assert forall k :: 0 <= k < |devices| ==> next[k].mac == devices[k].mac;
      assert Find(next, who) == Find(devices, who);
    } else {
      assert forall k :: 0 <= k < |devices| ==> next[k] == devices[k];
      assert next[|devices|].mac == mac;
    }
  }

  lemma HoldSeen(m: Model, op: Op, who: Mac)
    requires op.Hold?
    ensures SeenAt(Do(m, op).devices, who) == SeenAt(m.devices, who)
  {
    var next := Do(m, op).devices;
    assert |next| == |m.devices| && forall k :: 0 <= k < |next| ==>
        next[k].mac == m.devices[k].mac && next[k].firstSeen == m.devices[k].firstSeen && next[k].lastSeen == m.devices[k].lastSeen;
    assert Find(next, who) == Find(m.devices, who);
  }

  lemma {:induction false} RunSeen(m: Model, ops: seq<Op>, mac: Mac)
    ensures SeenAt(Run(m, ops).devices, mac) == SeenMore(SeenAt(m.devices, mac), TimesSeen(ops, mac))
    decreases |ops|
  {
    if ops == [] {
    } else {
      var op := ops[0];
      if op.Touch? {
        TouchSeen(m.devices, op.mac, op.at, mac);
        SeenOnceMore(SeenAt(m.devices, mac), op.at, TimesSeen(ops[1..], mac));
      } else {
        HoldSeen(m, op, mac);
      }
      RunSeen(Do(m, op), ops[1..], mac);
      assert [] + TimesSeen(ops[1..], mac) == TimesSeen(ops[1..], mac);
    }
  }

  /** A device is on record exactly if it was seen, from its first sighting to its latest, in whatever order their times came. */
  lemma SeenFromFirstToLatest(ops: seq<Op>, mac: Mac)
    ensures var times, seen := TimesSeen(ops, mac), SeenAt(Run(EMPTY, ops).devices, mac);
            && (seen.None? <==> times == [])
            && (seen.Some? ==> seen.value.0 == times[0] && seen.value.1 in times && forall t :: t in times ==> t <= seen.value.1)
  {
    RunSeen(EMPTY, ops, mac);
    if TimesSeen(ops, mac) != [] {
      LatestIsGreatest(TimesSeen(ops, mac));
    }
  }
}
