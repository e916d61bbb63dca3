/**
  The device table as the code keeps it (internal/device/device.go): records updated in place, each
  reachable through an ordered list and a map. Every method is proved to do what Devices says.
 */
module DeviceTable {
  import opened Bytes
  import opened NetIp
  import opened Wrappers
  import opened Devices

  class DeviceRecord {
    const mac: Mac
    const firstSeen: int
    var ipv4: seq<Address>
    var ipv6: seq<Address>
    var confidence: Confidence
    var overflow: nat
    var lastSeen: int

    function View(): Device
      reads this
    {
      Device(mac, ipv4, ipv6, confidence, overflow, firstSeen, lastSeen)
    }

    constructor (mac: Mac, at: int)
      ensures View() == Device(mac, [], [], WeakHint, 0, at, at)
    {
      this.mac, firstSeen, lastSeen := mac, at, at;
      ipv4, ipv6, confidence, overflow := [], [], WeakHint, 0;
    }

    /** Notes a sighting of an address in the list of its family. */
    method Sight(addr: Addr, state: State, at: int, ref: nat) returns (stronger: bool)
      modifies this
      ensures View() == DeviceNoted(old(View()), addr, state, at, ref)
      ensures stronger == Stronger(old(View()), addr, state, at, ref)
    {
      var r := NoteInList(if addr.V6? then ipv6 else ipv4, addr, state, at, ref);
      if addr.V6? {
        ipv6 := r.list;
      } else {
        ipv4 := r.list;
      }
      stronger := r.stronger;
      if r.dropped {
        overflow := overflow + 1;
      } else if stronger {
        if Strong(state) {
          confidence := Confirmed;
        } else if confidence == WeakHint {
          confidence := StrongHint;
        }
      }
    }

    method Advance(at: int)
      modifies this
      ensures View() == old(View()).(lastSeen := Later(old(lastSeen), at))
    {
      if at > lastSeen {
        lastSeen := at;
      }
    }
  }

  /** The place of an address in a list. */
  method Locate(list: seq<Address>, addr: Addr) returns (i: nat)
    ensures i == Place(list, addr)
  {
    i := 0;
    while i < |list| && list[i].addr != addr
      invariant i <= |list| && forall k :: 0 <= k < i ==> list[k].addr != addr
    {
      i := i + 1;
    }
  }

  method WeakCount(list: seq<Address>) returns (n: nat)
    ensures n == SeenCount(list)
  {
    n := 0;
    for i := 0 to |list|
      invariant n == SeenCount(list[..i])
    {
      assert list[..i + 1][..i] == list[..i];
      if list[i].state.Seen? {
        n := n + 1;
      }
    }
    assert list[..|list|] == list;
  }

  /** Updates the entry of an address in a list, or appends one unless the list is full of weak ones. */
  method NoteInList(list: seq<Address>, addr: Addr, state: State, at: int, ref: nat) returns (r: Noted)
    ensures r == NoteAddress(list, addr, state, at, ref)
  {
    var i := Locate(list, addr);
    if i < |list| {
      var a := list[i];
      if at > a.lastSeen {
        a := a.(lastSeen := at);
      }
      if Rank(state) <= Rank(a.state) {
        return Noted(list[i := a], false, false);
      }
      return Noted(list[i := a.(state := state, ref := ref)], true, false);
    }
    if state.Seen? {
      var weak := WeakCount(list);
      if weak >= MAX_WEAK_ADDRESSES {
        return Noted(list, false, true);
      }
    }
    r := Noted(list + [Address(addr, state, at, at, ref)], true, false);
  }

  class ClaimRecord {
    const addr: Addr
    const firstSeen: int
    var macs: seq<Mac>
    var refs: seq<nat>
    var lastSeen: int

    function View(): Claim
      reads this
    {
      Claim(addr, macs, refs, firstSeen, lastSeen)
    }

    constructor (addr: Addr, mac: Mac, at: int, ref: nat)
      ensures View() == Claim(addr, [mac], [ref], at, at)
    {
      this.addr, firstSeen, lastSeen := addr, at, at;
      macs, refs := [mac], [ref];
    }

    /** Adds a claimant that is not on record yet. */
    method Note(mac: Mac, at: int, ref: nat) returns (added: bool)
      modifies this
      ensures View() == ClaimNoted(old(View()), mac, at, ref) && added == (mac !in old(macs))
    {
      lastSeen := at;
      added := true;
      for i := 0 to |macs|
        invariant mac !in macs[..i]
        invariant View() == old(View()).(lastSeen := at) && added
      {
        if macs[i] == mac {
          return false;
        }
        assert macs[..i + 1] == macs[..i] + [macs[i]];
      }
      assert macs[..|macs|] == macs;
      macs, refs := macs + [mac], refs + [ref];
    }
  }

  /** The map and the list hold the same device records, under the MACs they carry. */
  predicate DevicesIndexed(byMac: map<Mac, DeviceRecord>, order: seq<DeviceRecord>) {
    && (forall i, j :: 0 <= i < j < |order| ==> order[i] != order[j])
    && (forall i :: 0 <= i < |order| ==> order[i].mac in byMac && byMac[order[i].mac] == order[i])
    && (forall m :: m in byMac ==> byMac[m].mac == m && byMac[m] in order)
  }

  /** The map and the list hold the same claim records, under the addresses they carry. */
  predicate ClaimsIndexed(claims: map<Addr, ClaimRecord>, order: seq<ClaimRecord>) {
    && (forall i, j :: 0 <= i < j < |order| ==> order[i] != order[j])
    && (forall i :: 0 <= i < |order| ==> order[i].addr in claims && claims[order[i].addr] == order[i])
    && (forall a :: a in claims ==> claims[a].addr == a && claims[a] in order)
  }

  lemma DevicesIndexedMore(byMac: map<Mac, DeviceRecord>, order: seq<DeviceRecord>, d: DeviceRecord)
    requires DevicesIndexed(byMac, order) && d !in order && d.mac !in byMac
    ensures DevicesIndexed(byMac[d.mac := d], order + [d])
  {
    forall m | m in byMac ensures byMac[m] in order + [d] {
      assert byMac[m] in order;
    }
    assert d == (order + [d])[|order|];
  }

  lemma ClaimsIndexedMore(claims: map<Addr, ClaimRecord>, order: seq<ClaimRecord>, c: ClaimRecord)
    requires ClaimsIndexed(claims, order) && c !in order && c.addr !in claims
    ensures ClaimsIndexed(claims[c.addr := c], order + [c])
  {
    forall a | a in claims ensures claims[a] in order + [c] {
      assert claims[a] in order;
    }
    assert c == (order + [c])[|order|];
  }

  ghost predicate ShowsDevices(order: seq<DeviceRecord>, devices: seq<Device>)
    reads order
  {
    |order| == |devices| && forall i :: 0 <= i < |order| ==> devices[i] == order[i].View()
  }

  ghost predicate ShowsClaims(order: seq<ClaimRecord>, claims: seq<Claim>)
    reads order
  {
    |order| == |claims| && forall i :: 0 <= i < |order| ==> claims[i] == order[i].View()
  }

  /** The map finds the record the search of the list would. */
  lemma KnownDevice(byMac: map<Mac, DeviceRecord>, order: seq<DeviceRecord>, devices: seq<Device>, mac: Mac)
    requires DevicesIndexed(byMac, order) && |order| == |devices|
    requires forall i :: 0 <= i < |order| ==> devices[i].mac == order[i].mac
    ensures mac in byMac <==> Find(devices, mac) < |order|
    ensures mac in byMac ==> order[Find(devices, mac)] == byMac[mac]
  {
    if mac in byMac {
      var k :| 0 <= k < |order| && order[k] == byMac[mac];
      assert devices[k].mac == mac;
    }
  }

  lemma KnownClaim(claims: map<Addr, ClaimRecord>, order: seq<ClaimRecord>, shown: seq<Claim>, addr: Addr)
    requires ClaimsIndexed(claims, order) && |order| == |shown|
    requires forall i :: 0 <= i < |order| ==> shown[i].addr == order[i].addr
    ensures addr in claims <==> ClaimPlace(shown, addr) < |order|
    ensures addr in claims ==> order[ClaimPlace(shown, addr)] == claims[addr]
  {
    if addr in claims {
      var k :| 0 <= k < |order| && order[k] == claims[addr];
      assert shown[k].addr == addr;
    }
  }

  class Table {
    var byMac: map<Mac, DeviceRecord>
    var order: seq<DeviceRecord>
    var claims: map<Addr, ClaimRecord>
    var claimOrder: seq<ClaimRecord>
    ghost var model: Model

    /** Both pairs of map and list agree, and the records show the model. */
    ghost predicate Valid()
      reads this, order, claimOrder
    {
      && DevicesIndexed(byMac, order) && ShowsDevices(order, model.devices)
      && ClaimsIndexed(claims, claimOrder) && ShowsClaims(claimOrder, model.claims)
    }

    constructor ()
      ensures Valid() && model == EMPTY && order == [] && claimOrder == []
    {
      byMac, order, claims, claimOrder, model := map[], [], map[], [], EMPTY;
    }

    method AppendDevice(d: DeviceRecord)
      requires Valid() && d.mac !in byMac && d !in order
      modifies `byMac, `order, `model
      ensures Valid()
      ensures model == old(model).(devices := old(model.devices) + [d.View()])
      ensures order == old(order) + [d] && byMac == old(byMac)[d.mac := d]
    {
      DevicesIndexedMore(byMac, order, d);
      byMac := byMac[d.mac := d];
      order := order + [d];
      model := model.(devices := model.devices + [d.View()]);
    }

    method AdvanceKnown(d: DeviceRecord, ghost i: nat, at: int)
      requires Valid() && i < |order| && order[i] == d
      modifies d, `model
      ensures Valid()
      ensures model == old(model).(devices := old(model.devices)[i := old(d.View()).(lastSeen := Later(old(d.lastSeen), at))])
    {
      d.Advance(at);
      model := model.(devices := model.devices[i := d.View()]);
    }

    /** Finds or creates the device of a MAC and advances its last sighting. */
    method Touch(mac: Mac, at: int) returns (d: DeviceRecord, events: seq<Event>)
      requires Valid()
      modifies `byMac, `order, `model, order
      ensures Valid()
      ensures model == Do(old(model), Op.Touch(mac, at)) && events == Report(old(model), Op.Touch(mac, at))
      ensures mac in byMac && d == byMac[mac]
      ensures forall x :: x in order ==> x in old(order) || fresh(x)
    {
      KnownDevice(byMac, order, model.devices, mac);
      if mac in byMac {
        d := byMac[mac];
        AdvanceKnown(d, Find(model.devices, mac), at);
        events := [];
      } else {
        d := new DeviceRecord(mac, at);
        AppendDevice(d);
        events := [NewDevice(mac)];
      }
    }

    method AppendClaim(c: ClaimRecord)
      requires Valid() && c.addr !in claims && c !in claimOrder
      modifies `claims, `claimOrder, `model
      ensures Valid()
      ensures model == old(model).(claims := old(model.claims) + [c.View()])
      ensures claimOrder == old(claimOrder) + [c]
    {
      ClaimsIndexedMore(claims, claimOrder, c);
      claims := claims[c.addr := c];
      claimOrder := claimOrder + [c];
      model := model.(claims := model.claims + [c.View()]);
    }

    method NoteClaimant(c: ClaimRecord, ghost i: nat, mac: Mac, at: int, ref: nat) returns (added: bool)
      requires Valid() && i < |claimOrder| && claimOrder[i] == c
      modifies c, `model
      ensures Valid() && added == (mac !in old(c.macs))
      ensures c.View() == ClaimNoted(old(c.View()), mac, at, ref)
      ensures model == old(model).(claims := old(model.claims)[i := c.View()])
    {
      added := c.Note(mac, at, ref);
      model := model.(claims := model.claims[i := c.View()]);
    }

    /** Records a claim of an address, and reports a conflict for every claimant after the first. */
    method RecordClaim(mac: Mac, addr: Addr, at: int, ref: nat) returns (events: seq<Event>)
      requires Valid()
      modifies `claims, `claimOrder, `model, claimOrder
      ensures Valid()
      ensures model == old(model).(claims := NoteClaim(old(model.claims), addr, mac, at, ref))
      ensures events == ConflictOf(old(model.claims), addr, mac)
      ensures forall x :: x in claimOrder ==> x in old(claimOrder) || fresh(x)
    {
      KnownClaim(claims, claimOrder, model.claims, addr);
      events := [];
      if addr !in claims {
        var c := new ClaimRecord(addr, mac, at, ref);
        AppendClaim(c);
      } else {
        var c := claims[addr];
        var added := NoteClaimant(c, ClaimPlace(model.claims, addr), mac, at, ref);
        if added && |c.macs| >= 2 {
          events := [AddressConflict(addr, c.macs)];
        }
      }
    }
  
    /** Records the state a device was seen in with an address; what is new or stronger is reported. */
    method AddAddress(d: DeviceRecord, addr: Addr, state: State, at: int, ref: nat) returns (events: seq<Event>)
      requires Valid() && d.mac in byMac && byMac[d.mac] == d
      modifies d, `claims, `claimOrder, `model, claimOrder
      ensures Valid()
      ensures model == Do(old(model), Hold(d.mac, addr, state, at, ref)) && events == Report(old(model), Hold(d.mac, addr, state, at, ref))
      ensures forall x :: x in claimOrder ==> x in old(claimOrder) || fresh(x)
    {
      if !addr.IsValid() || addr.IsUnspecified() {
        return [];
      }
      KnownDevice(byMac, order, model.devices, d.mac);
      events := AddHoldable(d, Find(model.devices, d.mac), addr, state, at, ref);
    }

    /** The same for an address the device can hold. */
    method AddHoldable(d: DeviceRecord, ghost i: nat, addr: Addr, state: State, at: int, ref: nat) returns (events: seq<Event>)
      requires Valid() && i < |order| && order[i] == d && i == Find(model.devices, d.mac) && Holdable(addr, addr.V6?)
      modifies d, `claims, `claimOrder, `model, claimOrder
      ensures Valid()
      ensures model == Do(old(model), Hold(d.mac, addr, state, at, ref)) && events == Report(old(model), Hold(d.mac, addr, state, at, ref))
      ensures forall x :: x in claimOrder ==> x in old(claimOrder) || fresh(x)
    {
      var stronger := NoteSighting(d, i, addr, state, at, ref);
      if !stronger {
        return [];
      }
      events := [Update(d.mac, addr)];
      if Strong(state) {
        var conflicts := RecordClaim(d.mac, addr, at, ref);
        events := events + conflicts;
      }
    }

    /** Notes a sighting in the record of device i. */
    method NoteSighting(d: DeviceRecord, ghost i: nat, addr: Addr, state: State, at: int, ref: nat) returns (stronger: bool)
      requires Valid() && i < |order| && order[i] == d
      modifies d, `model
      ensures Valid() && stronger == Stronger(old(d.View()), addr, state, at, ref)
      ensures model == old(model).(devices := old(model.devices)[i := DeviceNoted(old(d.View()), addr, state, at, ref)])
    {
      stronger := d.Sight(addr, state, at, ref);
      model := model.(devices := model.devices[i := d.View()]);
    }
  
    /** The claims of more than one device, oldest first. */
    method ListConflicts() returns (out: seq<Claim>)
      requires Valid()
      ensures out == Conflicting(model.claims)
    {
      out := [];
      for i := 0 to |claimOrder|
        invariant out == Conflicting(model.claims[..i])
      {
        assert model.claims[..i + 1][..i] == model.claims[..i];
        if |claimOrder[i].macs| > 1 {
          out := out + [claimOrder[i].View()];
        }
      }
      assert model.claims[..|claimOrder|] == model.claims;
    }
  }
}
