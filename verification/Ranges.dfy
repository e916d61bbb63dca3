/**
  IPv4 address ranges: the hosts a sweep visits (internal/active/active.go), directed broadcasts
  (internal/active/ca.go), the recommended address (internal/diagnose/diagnose.go) and the
  refusal to configure an unusable one (cmd/wirepup/cmd_active.go).
 */
module Ranges {
  import opened Bytes
  import opened NetIp
  import opened Wrappers

  const MIN_PREFIX_BITS := 24
  const LIMITED_BROADCAST := V4(0xffff_ffff)
  const WIDTH := 32

  /** A valid prefix of either family; the address may have host bits set. */
  datatype Prefix = Prefix(addr: Addr, bits: nat)

  /** How many addresses an IPv4 prefix of this length spans. */
  function Span(bits: nat): nat
    requires bits <= WIDTH
  {
    Pow2(WIDTH - bits)
  }

  /** The first address of the range v lies in. */
  function Network(v: u32, bits: nat): (r: u32)
    requires bits <= WIDTH
    ensures r <= v < r + Span(bits)
  {
    RemainderBounds(v, Span(bits));
    v - v % Span(bits)
  }

  predicate IsV4(p: Prefix) {
    p.addr.V4? && p.bits <= WIDTH
  }

  function Masked(p: Prefix): Prefix
    requires IsV4(p)
  {
    p.(addr := V4(Network(p.addr.v, p.bits)))
  }

  /** netip's Contains for IPv4. */
  predicate Contains(p: Prefix, v: u32)
    requires IsV4(p)
  {
    Network(v, p.bits) == Network(p.addr.v, p.bits)
  }

  /** The range of a prefix is one run of addresses from its network address. */
  lemma ContainsIsRange(p: Prefix, v: u32)
    requires IsV4(p)
    ensures Contains(p, v) <==> Network(p.addr.v, p.bits) <= v < Network(p.addr.v, p.bits) + Span(p.bits)
  {
    var span, base := Span(p.bits), Network(p.addr.v, p.bits);
    NetworkMultiple(p.addr.v, p.bits);
    if base <= v < base + span {
      var k := base / span;
      RemainderUnique(v, span, k, v - base);
    }
  }

  /** The quotient of a number below span * all leaves room for one whole span. */
  lemma WholeSpanFits(v: nat, span: nat, all: nat)
    requires span > 0 && v < span * all
    ensures span * (v / span) + span <= span * all
  {
    var q := v / span;
    assert v == span * q + v % span;
    SmallerFactor(span, q, all);
    ProductGrows(span, q + 1, all);
    assert span * (q + 1) == span * q + span;
  }

  lemma SmallerFactor(d: nat, a: nat, b: nat)
    requires d * a < d * b
    ensures a < b
  {
    if b <= a {
      ProductGrows(d, b, a);
    }
  }

  lemma ProductGrows(d: nat, a: nat, b: nat)
    requires a <= b
    ensures d * a <= d * b
  {
    assert d * b == d * a + d * (b - a);
  }

  lemma AllAddresses()
    ensures Pow2(32) == 0x1_0000_0000
  {
    SmallSpans();
    Pow2Split(8, 8);
    Pow2Split(16, 16);
  }

  lemma NetworkMultiple(v: u32, bits: nat)
    requires bits <= WIDTH
    ensures Network(v, bits) == Span(bits) * (v / Span(bits)) && Network(v, bits) / Span(bits) == v / Span(bits)
    ensures Network(v, bits) + Span(bits) <= 0x1_0000_0000
  {
    var span := Span(bits);
    RemainderBounds(v, span);
    QuotientUnique(Network(v, bits), span, v / span, 0);
    Pow2Split(WIDTH - bits, bits);
    AllAddresses();
    WholeSpanFits(v, span, Pow2(bits));
  }

  // ---------------------------------------------------------------- directed broadcast

  function HostMask(bits: nat): nat
    requires bits <= WIDTH
  {
    0xffff_ffff / Pow2(bits)
  }

  /** The broadcast address of an IPv4 prefix long enough to have one. */
  function DirectedBroadcast(p: Prefix): Option<Addr> {
    if !IsV4(p) || p.bits > 30 then None
    else
      DirectedBroadcastFits(p);
      Some(V4(Or(Masked(p).addr.v, HostMask(p.bits))))
  }

  lemma DirectedBroadcastFits(p: Prefix)
    requires IsV4(p)
    ensures Or(Masked(p).addr.v, HostMask(p.bits)) == Network(p.addr.v, p.bits) + Span(p.bits) - 1 < 0x1_0000_0000
  {
    NetworkMultiple(p.addr.v, p.bits);
    HostMaskIsSpan(p.bits);
    OrLowBits(p.addr.v / Span(p.bits), WIDTH - p.bits, Span(p.bits) - 1);
  }

  lemma HostMaskIsSpan(bits: nat)
    requires bits <= WIDTH
    ensures HostMask(bits) == Span(bits) - 1
  {
    AllAddresses();
    OnesShifted(bits, WIDTH - bits);
  }

  /** The directed broadcast is the last address of the range. */
  lemma DirectedBroadcastIsLast(p: Prefix)
    requires IsV4(p) && p.bits <= 30
    ensures DirectedBroadcast(p).Some? && DirectedBroadcast(p).value.V4?
    ensures DirectedBroadcast(p).value.v == Network(p.addr.v, p.bits) + Span(p.bits) - 1
    ensures forall v: u32 :: Contains(p, v) ==> v <= DirectedBroadcast(p).value.v
    ensures Contains(p, DirectedBroadcast(p).value.v)
  {
    DirectedBroadcastFits(p);
    forall v: u32 | Contains(p, v) ensures v <= DirectedBroadcast(p).value.v {
      ContainsIsRange(p, v);
    }
    ContainsIsRange(p, DirectedBroadcast(p).value.v);
  }

  /** Whether a datagram to the address is sent as broadcast or multicast. */
  predicate IsBroadcast(a: Addr, prefixes: seq<Prefix>) {
    a == LIMITED_BROADCAST || a.IsMulticast() || exists p :: p in prefixes && DirectedBroadcast(p) == Some(a)
  }

  datatype Destination = Destination(addr: Addr, port: u16, broadcast: bool)

  /** Every derived destination is the directed broadcast of a prefix, in order, and is recognized as broadcast. */
  method BroadcastDestinations(prefixes: seq<Prefix>, port: u16) returns (out: seq<Destination>)
    ensures forall d :: d in out <==> d.broadcast && d.port == port && exists p :: p in prefixes && DirectedBroadcast(p) == Some(d.addr)
    ensures forall d :: d in out ==> IsBroadcast(d.addr, prefixes)
  {
    out := [];
    for i := 0 to |prefixes|
      invariant forall d :: d in out <==> d.broadcast && d.port == port && exists p :: p in prefixes[..i] && DirectedBroadcast(p) == Some(d.addr)
    {
      assert prefixes[..i + 1] == prefixes[..i] + [prefixes[i]];
      var b := DirectedBroadcast(prefixes[i]);
      if b.Some? {
        out := out + [Destination(b.value, port, true)];
      }
    }
    assert prefixes[..|prefixes|] == prefixes;
  }

  // ---------------------------------------------------------------- hosts

  datatype HostsError = NotIpv4 | PrefixTooLarge

  /** A usable host address: not the network or broadcast address where the prefix has them. */
  predicate IsHost(p: Prefix, v: u32)
    requires IsV4(p)
  {
    && Contains(p, v)
    && (p.bits <= 30 ==> v != Masked(p).addr.v && DirectedBroadcast(p) != Some(V4(v)))
  }

  predicate Ascending(vs: seq<u32>) {
    forall i, j :: 0 <= i < j < |vs| ==> vs[i] < vs[j]
  }

  /** The addresses of a sweep, ascending: exactly the usable hosts of a prefix of at least 24 bits. */
  method Hosts(p: Prefix) returns (r: Result<seq<u32>, HostsError>)
    requires p.addr.V4? ==> p.bits <= WIDTH
    ensures r == Err(NotIpv4) <==> !p.addr.V4?
    ensures r == Err(PrefixTooLarge) <==> p.addr.V4? && p.bits < MIN_PREFIX_BITS
    ensures r.Ok? ==> Ascending(r.value) && forall v: u32 :: v in r.value <==> IsHost(p, v)
  {
    if !p.addr.V4? {
      return Err(NotIpv4);
    }
    if p.bits < MIN_PREFIX_BITS {
      return Err(PrefixTooLarge);
    }
    var base := Masked(p).addr.v;
    HostsAreInner(p);
    if p.bits == 32 {
      return Ok([base]);
    }
    var n := Span(p.bits);
    NetworkMultiple(p.addr.v, p.bits);
    SmallSpans();
    var out: seq<u32> := [];
    for i := 1 to n - 1
      invariant Run(out, base + 1, base + i)
    {
      out := out + [base + i];
    }
    if p.bits == 31 {
      out := [base, base + 1];
    }
    assert Run(out, if p.bits == 31 then base else base + 1, if p.bits == 31 then base + 2 else base + n - 1);
    r := Ok(out);
  }

  /** vs lists every address from lo up to, not including, hi. */
  predicate Run(vs: seq<u32>, lo: nat, hi: nat)
    requires lo <= hi
  {
    |vs| == hi - lo && (forall k :: 0 <= k < |vs| ==> vs[k] == lo + k) && forall v: u32 :: lo <= v < hi <==> v in vs
  }

  lemma SmallSpans()
    ensures Pow2(0) == 1 && Pow2(1) == 2 && Pow2(2) == 4 && Pow2(3) == 8 && Pow2(4) == 16
    ensures Pow2(5) == 32 && Pow2(6) == 64 && Pow2(7) == 128 && Pow2(8) == 256
  {
  }

  /** Usable hosts in terms of the distance from the network address. */
  lemma HostsAreInner(p: Prefix)
    requires IsV4(p)
    ensures var base, n := Network(p.addr.v, p.bits), Span(p.bits);
            forall v: u32 :: IsHost(p, v) <==> if p.bits <= 30 then base < v < base + n - 1 else base <= v < base + n
  {
    var base, n := Network(p.addr.v, p.bits), Span(p.bits);
    forall v: u32 ensures IsHost(p, v) <==> if p.bits <= 30 then base < v < base + n - 1 else base <= v < base + n {
      ContainsIsRange(p, v);
      if p.bits <= 30 {
        DirectedBroadcastIsLast(p);
      }
    }
  }

  // ---------------------------------------------------------------- the recommended address

  /** What is known to be taken: observed addresses, local addresses and gateways. */
  predicate Used(a: Addr, devices: seq<seq<Addr>>, local: seq<Prefix>, gateways: seq<Addr>) {
    || (exists d :: d in devices && a in d)
    || (exists p :: p in local && p.addr == a)
    || (a in gateways && a.IsValid())
  }

  function AddrAt(base: u32, i: int): Addr {
    V4((base + i) % 0x1_0000_0000)
  }

  /** The highest of the i first inner addresses that is not used. */
  function CandidateFrom(base: u32, i: int, used: set<Addr>): (r: Option<Addr>)
    ensures r.Some? ==> exists k :: 1 <= k <= i && r.value == AddrAt(base, k) && AddrAt(base, k) !in used
                                    && forall j :: k < j <= i ==> AddrAt(base, j) in used
    ensures r.None? ==> forall j :: 1 <= j <= i ==> AddrAt(base, j) in used
    decreases i
  {
    if i < 1 then None
    else if AddrAt(base, i) !in used then Some(AddrAt(base, i))
    else CandidateFrom(base, i - 1, used)
  }

  function UsedSet(devices: seq<seq<Addr>>, local: seq<Prefix>, gateways: seq<Addr>): (r: set<Addr>)
    ensures forall a :: a in r <==> Used(a, devices, local, gateways)
  {
    (set d, a | d in devices && a in d :: a) + (set p | p in local :: p.addr) + (set a | a in gateways && a.IsValid())
  }

  method UsedAddresses(devices: seq<seq<Addr>>, local: seq<Prefix>, gateways: seq<Addr>) returns (used: set<Addr>)
    ensures used == UsedSet(devices, local, gateways)
  {
    used := {};
    for i := 0 to |devices|
      invariant forall a :: a in used <==> Used(a, devices[..i], [], [])
    {
      TakeMore(devices, i);
      used := used + set a | a in devices[i];
    }
    assert devices[..|devices|] == devices;
    for i := 0 to |local|
      invariant forall a :: a in used <==> Used(a, devices, local[..i], [])
    {
      TakeMore(local, i);
      used := used + {local[i].addr};
    }
    assert local[..|local|] == local;
    for i := 0 to |gateways|
      invariant forall a :: a in used <==> Used(a, devices, local, gateways[..i])
    {
      TakeMore(gateways, i);
      if gateways[i].IsValid() {
        used := used + {gateways[i]};
      }
    }
    assert gateways[..|gateways|] == gateways;
  }

  lemma TakeMore<T>(s: seq<T>, i: nat)
    requires i < |s|
    ensures forall x :: x in s[..i + 1] <==> x in s[..i] || x == s[i]
  {
    assert s[..i + 1] == s[..i] + [s[i]];
  }

  /** Picks the highest free host address of the prefix, whose address is its network address. */
  method Candidate(prefix: Prefix, devices: seq<seq<Addr>>, local: seq<Prefix>, gateways: seq<Addr>) returns (r: Option<Addr>)
    requires IsV4(prefix)
    ensures r == CandidateFrom(prefix.addr.v, Span(prefix.bits) - 2, UsedSet(devices, local, gateways))
  {
    var used := UsedAddresses(devices, local, gateways);
    var base := prefix.addr.v;
    var i := Span(prefix.bits) - 2;
    while i >= 1
      invariant CandidateFrom(base, Span(prefix.bits) - 2, used) == CandidateFrom(base, i, used)
    {
      if AddrAt(base, i) !in used {
        return Some(AddrAt(base, i));
      }
      i := i - 1;
    }
    r := None;
  }

  /** On a masked prefix the candidate is the greatest unused host, and there is none only if all hosts are used. */
  lemma CandidateIsGreatestFree(p: Prefix, devices: seq<seq<Addr>>, local: seq<Prefix>, gateways: seq<Addr>)
    requires IsV4(p) && p.bits <= 30 && Masked(p) == p
    ensures var r := CandidateFrom(p.addr.v, Span(p.bits) - 2, UsedSet(devices, local, gateways));
            match r
            case Some(a) =>
              && a.V4? && IsHost(p, a.v) && !Used(a, devices, local, gateways)
              && forall v: u32 :: IsHost(p, v) && v > a.v ==> Used(V4(v), devices, local, gateways)
            case None => forall v: u32 :: IsHost(p, v) ==> Used(V4(v), devices, local, gateways)
  {
    var base, span, used := p.addr.v, Span(p.bits), UsedSet(devices, local, gateways);
    NetworkMultiple(p.addr.v, p.bits);
    HostsAreInner(p);
    forall j | 1 <= j <= span - 2 ensures AddrAt(base, j) == V4(base + j) {
    }
    forall v: u32 | IsHost(p, v) ensures AddrAt(base, v - base) == V4(v) && 1 <= v - base <= span - 2 {
    }
  }

  // ---------------------------------------------------------------- refusing an unusable address

  datatype Refusal = AlreadyConfigured | IsNetworkAddress | IsBroadcastAddress

  /** Why an address must not be configured with this prefix length. */
  function RefuseIfConfigured(local: seq<Prefix>, p: Prefix): Option<Refusal>
    requires IsV4(p)
  {
    if exists l :: l in local && l.addr == p.addr then Some(AlreadyConfigured)
    else if p.bits < 31 && p.addr == Masked(p).addr then Some(IsNetworkAddress)
    else if p.bits < 31 && DirectedBroadcast(p) == Some(p.addr) then Some(IsBroadcastAddress)
    else None
  }

  /** The address is accepted exactly when it is a usable host that is not configured yet. */
  lemma AcceptedIffFreshHost(local: seq<Prefix>, p: Prefix)
    requires IsV4(p)
    ensures RefuseIfConfigured(local, p).None? <==> IsHost(p, p.addr.v) && !exists l :: l in local && l.addr == p.addr
  {
  }

  lemma MaskedKeepsRange(p: Prefix, v: u32)
    requires IsV4(p)
    ensures Masked(Masked(p)) == Masked(p)
    ensures IsHost(Masked(p), v) <==> IsHost(p, v)
    ensures Contains(p, v) ==> (IsHost(Prefix(V4(v), p.bits), v) <==> IsHost(p, v))
  {
    var m := Masked(p);
    NetworkMultiple(p.addr.v, p.bits);
    ContainsIsRange(p, m.addr.v);
    if p.bits <= 30 {
      DirectedBroadcastIsLast(p);
      DirectedBroadcastIsLast(m);
      DirectedBroadcastIsLast(Prefix(V4(v), p.bits));
    }
  }

  /** A recommended address is never refused: what diagnosis proposes, connect accepts. */
  lemma CandidateNeverRefused(target: u32, bits: nat, devices: seq<seq<Addr>>, local: seq<Prefix>, gateways: seq<Addr>)
    requires bits <= 30
    ensures var p := Masked(Prefix(V4(target), bits));
            var r := CandidateFrom(p.addr.v, Span(bits) - 2, UsedSet(devices, local, gateways));
            r.Some? ==> r.value.V4? && RefuseIfConfigured(local, Prefix(r.value, bits)).None?
  {
    var p := Masked(Prefix(V4(target), bits));
    MaskedKeepsRange(Prefix(V4(target), bits), target);
    CandidateIsGreatestFree(p, devices, local, gateways);
    var r := CandidateFrom(p.addr.v, Span(bits) - 2, UsedSet(devices, local, gateways));
    if r.Some? {
      MaskedKeepsRange(p, r.value.v);
      AcceptedIffFreshHost(local, Prefix(r.value, bits));
    }
  }

  /** A sweep sends no broadcast: no host of a prefix is its directed broadcast. */
  lemma SweptHostsAreUnicast(p: Prefix, v: u32)
    requires IsV4(p) && p.bits >= MIN_PREFIX_BITS && IsHost(p, v)
    ensures IsBroadcast(V4(v), [p]) <==> V4(v) == LIMITED_BROADCAST || V4(v).IsMulticast()
  {
    assert p in [p];
  }
}
