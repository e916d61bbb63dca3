/**
  The inspection before an owned removal (internal/networkcfg/owned_linux.go) and what the kernel
  does with the removal: deleting a primary address can take the secondaries of its subnet with it.
 */
module Owned {
  import opened Bytes
  import opened Wrappers
  import Ranges
  import opened Session

  /** An attribute of an address message; None stands for a value that is not four bytes. */
  datatype Attr = Local(addr: Option<u32>) | Address(addr: Option<u32>) | Tag(tag: string) | Other

  /** One message of an address dump. */
  datatype AddrMsg = AddrMsg(isAddr: bool, complete: bool, inet: bool, index: int, bits: nat, secondary: bool,
                             readable: bool, attrs: seq<Attr>)

  /** One message of a link dump; an unnamed link has the empty name. */
  datatype LinkMsg = LinkMsg(isLink: bool, complete: bool, index: int, readable: bool, name: string)

  datatype InspectError = BadDump | IdentityChanged | Unsafe

  /** An address of the kernel's table; address is the peer on a point-to-point interface. */
  datatype Live = Live(index: int, local: u32, address: u32, bits: nat, tag: string, secondary: bool)

  datatype Subnet = Subnet(base: u32, bits: nat)

  function SubnetOf(address: u32, bits: nat): Subnet
    requires bits <= 32
  {
    Subnet(Ranges.Network(address, bits), bits)
  }

  // ---------------------------------------------------------------- one message

  datatype Attrs = Attrs(local: Option<u32>, address: Option<u32>, tag: string)

  /** The last attribute of each kind counts, and a malformed address is an error. */
  function ReadAttrs(attrs: seq<Attr>, got: Attrs): Option<Attrs>
    decreases |attrs|
  {
    if attrs == [] then Some(got)
    else
      match attrs[0]
      case Local(a) => if a.None? then None else ReadAttrs(attrs[1..], got.(local := a))
      case Address(a) => if a.None? then None else ReadAttrs(attrs[1..], got.(address := a))
      case Tag(t) => ReadAttrs(attrs[1..], got.(tag := t))
      case Other => ReadAttrs(attrs[1..], got)
  }

  const NO_ATTRS := Attrs(None, None, "")

  /** A message that says nothing about this interface. */
  predicate Skipped(m: AddrMsg, index: int) {
    !m.isAddr || (m.complete && (!m.inet || m.index != index))
  }

  /** The address a message describes; each half of a point-to-point address stands in for the other. */
  function LiveOf(m: AddrMsg): (r: Option<Live>)
    ensures r.Some? ==> r.value.bits <= 32
  {
    if !m.complete || !m.readable then None
    else
      var a := ReadAttrs(m.attrs, NO_ATTRS);
      if a.None? || (a.value.local.None? && a.value.address.None?) || m.bits > 32 then None
      else
        var local := if a.value.local.Some? then a.value.local.value else a.value.address.value;
        var address := if a.value.address.Some? then a.value.address.value else local;
        Some(Live(m.index, local, address, m.bits, a.value.tag, m.secondary))
  }

  method Attributes(attrs: seq<Attr>) returns (r: Option<Attrs>)
    ensures r == ReadAttrs(attrs, NO_ATTRS)
  {
    var local, address, tag := None, None, "";
    for i := 0 to |attrs|
      invariant ReadAttrs(attrs, NO_ATTRS) == ReadAttrs(attrs[i..], Attrs(local, address, tag))
    {
      match attrs[i]
      case Local(a) =>
        if a.None? {
          return None;
        }
        local := a;
      case Address(a) =>
        if a.None? {
          return None;
        }
        address := a;
      case Tag(t) => tag := t;
      case Other =>
    }
    r := Some(Attrs(local, address, tag));
  }

  // ---------------------------------------------------------------- the address dump

  function WantedTag(e: Entry): string {
    if e.tag == "" then e.iface else e.tag
  }

  /** What the loop over the dump has found: the owned address, the subnet of its primary, and the other subnets. */
  datatype Findings = Findings(present: bool, primary: Option<Subnet>, others: seq<Subnet>)

  const NOTHING := Findings(false, None, [])

  function Seen(f: Findings, e: Entry, a: Live): Result<Findings, InspectError>
    requires a.bits <= 32
  {
    var subnet := SubnetOf(a.address, a.bits);
    if a.local != e.addr then Ok(f.(others := f.others + [subnet]))
    else if a.bits != e.bits || a.tag != WantedTag(e) then Err(IdentityChanged)
    else Ok(f.(present := true, primary := if a.secondary then f.primary else Some(subnet)))
  }

  function Scan(msgs: seq<AddrMsg>, e: Entry, f: Findings): Result<Findings, InspectError>
    decreases |msgs|
  {
    if msgs == [] then Ok(f)
    else if Skipped(msgs[0], e.index) then Scan(msgs[1..], e, f)
    else
      match LiveOf(msgs[0])
      case None => Err(BadDump)
      case Some(a) =>
        match Seen(f, e, a)
        case Err(x) => Err(x)
        case Ok(g) => Scan(msgs[1..], e, g)
  }

  /** Whether deleting the primary could take another address with it. */
  predicate Shares(f: Findings) {
    f.primary.Some? && f.primary.value in f.others
  }

  function Decided(r: Result<Findings, InspectError>): Result<bool, InspectError> {
    match r
    case Err(x) => Err(x)
    case Ok(f) => if Shares(f) then Err(Unsafe) else Ok(f.present)
  }

  /** The loop over the address dump and the check of the other subnets after it. */
  method AddressListed(msgs: seq<AddrMsg>, e: Entry) returns (r: Result<bool, InspectError>)
    ensures r == Decided(Scan(msgs, e, NOTHING))
  {
    var present, primary, others := false, None, [];
    for i := 0 to |msgs|
      invariant Scan(msgs, e, NOTHING) == Scan(msgs[i..], e, Findings(present, primary, others))
    {
      var m := msgs[i];
      if Skipped(m, e.index) {
        continue;
      }
      var live := LiveOf(m);
      if live.None? {
        return Err(BadDump);
      }
      var a := live.value;
      var subnet := SubnetOf(a.address, a.bits);
      if a.local != e.addr {
        others := others + [subnet];
        continue;
      }
      if a.bits != e.bits || a.tag != WantedTag(e) {
        return Err(IdentityChanged);
      }
      present := true;
      if !a.secondary {
        primary := Some(subnet);
      }
    }
    for i := 0 to |others|
      invariant primary.Some? ==> primary.value !in others[..i]
    {
      if Some(others[i]) == primary {
        return Err(Unsafe);
      }
      assert others[..i + 1] == others[..i] + [others[i]];
    }
    assert others[..|others|] == others;
    r := Ok(present);
  }

  // ---------------------------------------------------------------- the link dump

  predicate Named(m: LinkMsg, e: Entry) {
    m.name == e.iface || m.index == e.index
  }

  /** The interface is there under its name and index, or is not there under either. */
  function Linked(msgs: seq<LinkMsg>, e: Entry, present: bool): Result<bool, InspectError>
    decreases |msgs|
  {
    if msgs == [] then Ok(present)
    else
      var m := msgs[0];
      if !m.isLink then Linked(msgs[1..], e, present)
      else if !m.complete || !m.readable || |m.name| == 0 then Err(BadDump)
      else if !Named(m, e) then Linked(msgs[1..], e, present)
      else if m.name != e.iface || m.index != e.index then Err(IdentityChanged)
      else Linked(msgs[1..], e, true)
  }

  method InterfaceListed(msgs: seq<LinkMsg>, e: Entry) returns (r: Result<bool, InspectError>)
    ensures r == Linked(msgs, e, false)
  {
    var present := false;
    for i := 0 to |msgs|
      invariant Linked(msgs, e, false) == Linked(msgs[i..], e, present)
    {
      var m := msgs[i];
      if !m.isLink {
        continue;
      }
      if !m.complete || !m.readable || |m.name| == 0 {
        return Err(BadDump);
      }
      if Named(m, e) {
        if m.name != e.iface || m.index != e.index {
          return Err(IdentityChanged);
        }
        present := true;
      }
    }
    r := Ok(present);
  }

  /** What the dumps of one inspection were: links, addresses, links again; None for a failed dump. */
  datatype Dumps = Dumps(before: Option<seq<LinkMsg>>, addrs: Option<seq<AddrMsg>>, after: Option<seq<LinkMsg>>)

  function LinksSay(msgs: Option<seq<LinkMsg>>, e: Entry): Result<bool, InspectError> {
    if msgs.None? then Err(BadDump) else Linked(msgs.value, e, false)
  }

  function Inspected(d: Dumps, e: Entry): Result<bool, InspectError> {
    var before := LinksSay(d.before, e);
    if before.Err? || !before.value then before
    else if d.addrs.None? then Err(BadDump)
    else
      var listed := Decided(Scan(d.addrs.value, e, NOTHING));
      if listed.Err? then listed
      else
        var after := LinksSay(d.after, e);
        if after.Err? then after else Ok(listed.value && after.value)
  }

  method Inspect(d: Dumps, e: Entry) returns (r: Result<bool, InspectError>)
    ensures r == Inspected(d, e)
  {
    if d.before.None? {
      return Err(BadDump);
    }
    r := InterfaceListed(d.before.value, e);
    if r.Err? || !r.value {
      return;
    }
    if d.addrs.None? {
      return Err(BadDump);
    }
    r := AddressListed(d.addrs.value, e);
    if r.Err? {
      return;
    }
    if d.after.None? {
      return Err(BadDump);
    }
    var live := InterfaceListed(d.after.value, e);
    r := if live.Err? then live else Ok(r.value && live.value);
  }

  // ---------------------------------------------------------------- what an inspection establishes

  /** The addresses a dump lists for an interface, if every message about it can be read. */
  function Listed(msgs: seq<AddrMsg>, index: int): (r: Option<seq<Live>>)
    ensures r.Some? ==> forall a :: a in r.value ==> a.bits <= 32
    decreases |msgs|
  {
    if msgs == [] then Some([])
    else
      var rest := Listed(msgs[1..], index);
      if Skipped(msgs[0], index) then rest
      else
        var a := LiveOf(msgs[0]);
        if a.None? || rest.None? then None else Some([a.value] + rest.value)
  }

  predicate Mine(a: Live, e: Entry) {
    a.local == e.addr
  }

  /** What a finished scan says about the addresses listed. */
  ghost predicate Summary(f: Findings, table: seq<Live>, e: Entry, g: Findings)
    requires forall a :: a in table ==> a.bits <= 32
  {
    && (g.present <==> f.present || exists a :: a in table && Mine(a, e))
    && (forall a :: a in table && Mine(a, e) ==> a.bits == e.bits && a.tag == WantedTag(e))
    && f.others <= g.others
    && (forall a :: a in table && !Mine(a, e) ==> SubnetOf(a.address, a.bits) in g.others)
  }

  lemma {:induction false} ScanSummary(msgs: seq<AddrMsg>, e: Entry, f: Findings)
    requires Scan(msgs, e, f).Ok?
    ensures Listed(msgs, e.index).Some?
    ensures Summary(f, Listed(msgs, e.index).value, e, Scan(msgs, e, f).value)
    decreases |msgs|
  {
    if msgs == [] {
    } else {
      if Skipped(msgs[0], e.index) {
        ScanSummary(msgs[1..], e, f);
      } else {
        var a := LiveOf(msgs[0]).value;
        var next := Seen(f, e, a).value;
        ScanSummary(msgs[1..], e, next);
        SummaryStep(f, a, next, Listed(msgs[1..], e.index).value, e, Scan(msgs, e, f).value);
      }
    }
  }

  lemma SummaryStep(f: Findings, a: Live, next: Findings, table: seq<Live>, e: Entry, g: Findings)
    requires a.bits <= 32 && Seen(f, e, a) == Ok(next)
    requires (forall a :: a in table ==> a.bits <= 32) && Summary(next, table, e, g)
    ensures Summary(f, [a] + table, e, g)
  {
    var all := [a] + table;
    assert a in all;
    assert forall x :: x in table ==> x in all;
    if !Mine(a, e) {
      var subnet := SubnetOf(a.address, a.bits);
      assert next.others == f.others + [subnet];
      assert next.others[|f.others|] == subnet;
      assert g.others[|f.others|] == subnet;
    }
  }

  /** The primary found last is the one there is, when there is only one. */
  lemma {:induction false} ScanPrimary(msgs: seq<AddrMsg>, e: Entry, f: Findings, a: Live)
    requires Scan(msgs, e, f).Ok? && Listed(msgs, e.index).Some?
    requires a.bits <= 32 && Mine(a, e) && !a.secondary
    requires forall x :: x in Listed(msgs, e.index).value && Mine(x, e) ==> x == a
    requires a in Listed(msgs, e.index).value || f.primary == Some(SubnetOf(a.address, a.bits))
    ensures Scan(msgs, e, f).value.primary == Some(SubnetOf(a.address, a.bits))
    decreases |msgs|
  {
    if msgs == [] {
    } else {
      if Skipped(msgs[0], e.index) {
        ScanPrimary(msgs[1..], e, f, a);
      } else {
        var x := LiveOf(msgs[0]).value;
        var rest := Listed(msgs[1..], e.index).value;
        assert Listed(msgs, e.index).value == [x] + rest;
        assert x in [x] + rest && forall y :: y in rest ==> y in [x] + rest;
        ScanPrimary(msgs[1..], e, Seen(f, e, x).value, a);
      }
    }
  }

  /** The links of a dump that can be read. */
  predicate HasLink(msgs: seq<LinkMsg>, e: Entry) {
    exists m :: m in msgs && m.isLink && m.name == e.iface && m.index == e.index
  }

  lemma {:induction false} LinkedMeans(msgs: seq<LinkMsg>, e: Entry, present: bool)
    requires Linked(msgs, e, present).Ok?
    ensures Linked(msgs, e, present).value <==> present || HasLink(msgs, e)
    ensures forall m :: m in msgs && m.isLink && Named(m, e) ==> m.name == e.iface && m.index == e.index
    decreases |msgs|
  {
    if msgs == [] {
    } else {
      assert msgs == [msgs[0]] + msgs[1..];
      LinkedMeans(msgs[1..], e, if msgs[0].isLink && Named(msgs[0], e) then true else present);
    }
  }

  /**
    An inspection that succeeds is accurate: it finds the address present exactly when the dumps have the
    interface both times and list the address, and then every listing of it has the recorded prefix and label.
   */
  lemma InspectionIsAccurate(d: Dumps, e: Entry)
    requires Inspected(d, e).Ok?
    ensures d.before.Some? && (HasLink(d.before.value, e) ==> d.addrs.Some? && d.after.Some? && Listed(d.addrs.value, e.index).Some?)
    ensures Inspected(d, e).value <==>
              && HasLink(d.before.value, e) && HasLink(d.after.value, e)
              && exists a :: a in Listed(d.addrs.value, e.index).value && Mine(a, e)
    ensures Inspected(d, e).value ==>
              forall a :: a in Listed(d.addrs.value, e.index).value && Mine(a, e) ==> a.bits == e.bits && a.tag == WantedTag(e)
  {
    LinkedMeans(d.before.value, e, false);
    if HasLink(d.before.value, e) {
      ScanSummary(d.addrs.value, e, NOTHING);
      LinkedMeans(d.after.value, e, false);
    }
  }

  // ---------------------------------------------------------------- exactly when an inspection succeeds

  /** Every listing of the owned address, primary or secondary, has the recorded prefix and label. */
  predicate IdentityKept(table: seq<Live>, e: Entry) {
    forall k :: 0 <= k < |table| && Mine(table[k], e) ==> table[k].bits == e.bits && table[k].tag == WantedTag(e)
  }

  /** The place of the last primary listing of the owned address. */
  predicate LastPrimary(table: seq<Live>, e: Entry, k: nat) {
    k < |table| && Mine(table[k], e) && !table[k].secondary && forall j :: k < j < |table| && Mine(table[j], e) ==> table[j].secondary
  }

  /** Another listed address is in the subnet of the last primary listing of the owned one. */
  ghost predicate SharesLastPrimary(table: seq<Live>, e: Entry)
    requires WellFormed(table)
  {
    exists k: nat, j: nat ::
      && LastPrimary(table, e, k) && j < |table| && !Mine(table[j], e)
      && SubnetOf(table[j].address, table[j].bits) == SubnetOf(table[k].address, table[k].bits)
  }

  /** What the scan has found of a table that keeps the identity. */
  /** Another address of the table lies in the subnet. */
  ghost predicate OtherIn(table: seq<Live>, e: Entry, s: Subnet)
    requires WellFormed(table)
  {
    exists k :: 0 <= k < |table| && !Mine(table[k], e) && SubnetOf(table[k].address, table[k].bits) == s
  }

  ghost predicate FoundAll(f: Findings, table: seq<Live>, e: Entry, g: Findings)
    requires WellFormed(table)
  {
    && (g.present <==> f.present || exists k :: 0 <= k < |table| && Mine(table[k], e))
    && (forall s :: s in g.others <==> s in f.others || OtherIn(table, e, s))
    && (forall k: nat :: LastPrimary(table, e, k) ==> g.primary == Some(SubnetOf(table[k].address, table[k].bits)))
    && ((forall k: nat :: !LastPrimary(table, e, k)) ==> g.primary == f.primary)
  }

  lemma FoundStep(f: Findings, a: Live, next: Findings, table: seq<Live>, e: Entry, g: Findings)
    requires a.bits <= 32 && WellFormed(table) && Seen(f, e, a) == Ok(next) && FoundAll(next, table, e, g)
    ensures WellFormed([a] + table) && FoundAll(f, [a] + table, e, g)
  {
    assert WellFormed([a] + table);
    FoundStepPresent(f, a, next, table, e, g);
    FoundStepOthers(f, a, next, table, e, g);
    FoundStepPrimary(f, a, next, table, e, g);
  }

  lemma FoundStepPresent(f: Findings, a: Live, next: Findings, table: seq<Live>, e: Entry, g: Findings)
    requires a.bits <= 32 && Seen(f, e, a) == Ok(next)
    requires g.present <==> next.present || exists k :: 0 <= k < |table| && Mine(table[k], e)
    ensures var all := [a] + table; g.present <==> f.present || exists k :: 0 <= k < |all| && Mine(all[k], e)
  {
    var all := [a] + table;
    assert all[0] == a && forall k :: 0 <= k < |table| ==> all[k + 1] == table[k];
    if k :| 0 <= k < |table| && Mine(table[k], e) {
      assert Mine(all[k + 1], e);
    }
    if k :| 0 <= k < |all| && Mine(all[k], e) {
      assert k > 0 ==> Mine(table[k - 1], e);
    }
  }

  lemma OtherInMore(a: Live, table: seq<Live>, e: Entry, s: Subnet)
    requires a.bits <= 32 && WellFormed(table)
    ensures WellFormed([a] + table)
    ensures OtherIn([a] + table, e, s) <==> OtherIn(table, e, s) || (!Mine(a, e) && SubnetOf(a.address, a.bits) == s)
  {
    var all := [a] + table;
    assert all[0] == a && forall k :: 0 <= k < |table| ==> all[k + 1] == table[k];
    assert forall k :: 0 < k < |all| ==> all[k] == table[k - 1];
  }

  lemma FoundStepOthers(f: Findings, a: Live, next: Findings, table: seq<Live>, e: Entry, g: Findings)
    requires a.bits <= 32 && WellFormed(table) && Seen(f, e, a) == Ok(next) && FoundAll(next, table, e, g)
    ensures WellFormed([a] + table) && forall s :: s in g.others <==> s in f.others || OtherIn([a] + table, e, s)
  {
    assert WellFormed([a] + table);
    forall s ensures s in g.others <==> s in f.others || OtherIn([a] + table, e, s) {
      OtherInMore(a, table, e, s);
    }
  }

  lemma FoundStepPrimary(f: Findings, a: Live, next: Findings, table: seq<Live>, e: Entry, g: Findings)
    requires a.bits <= 32 && WellFormed(table) && Seen(f, e, a) == Ok(next) && FoundAll(next, table, e, g)
    ensures var all := [a] + table;
            && (forall k: nat :: LastPrimary(all, e, k) ==> all[k].bits <= 32 && g.primary == Some(SubnetOf(all[k].address, all[k].bits)))
            && ((forall k: nat :: !LastPrimary(all, e, k)) ==> g.primary == f.primary)
  {
    var all := [a] + table;
    assert all[0] == a && forall k :: 0 <= k < |table| ==> all[k + 1] == table[k];
    forall k: nat ensures LastPrimary(table, e, k) ==> LastPrimary(all, e, k + 1) {
    }
    forall k: nat | LastPrimary(all, e, k) ensures all[k].bits <= 32 && g.primary == Some(SubnetOf(all[k].address, all[k].bits)) {
      if k > 0 {
        assert LastPrimary(table, e, k - 1);
      } else {
        forall m: nat ensures !LastPrimary(table, e, m) {
          assert m < |table| ==> all[m + 1] == table[m];
        }
      }
    }
    if forall k: nat :: !LastPrimary(all, e, k) {
      forall m: nat ensures !LastPrimary(table, e, m) {
        assert !LastPrimary(all, e, m + 1);
      }
      if Mine(a, e) && !a.secondary {
        NoLastNoPrimary(table, e, 0);
        assert LastPrimary(all, e, 0);
      }
    }
  }

  /** Without a last primary listing there is none at all. */
  lemma {:induction false} NoLastNoPrimary(table: seq<Live>, e: Entry, k: nat)
    requires k <= |table| && forall m: nat :: !LastPrimary(table, e, m)
    ensures forall j :: k <= j < |table| && Mine(table[j], e) ==> table[j].secondary
    decreases |table| - k
  {
    if k == |table| {
    } else {
      NoLastNoPrimary(table, e, k + 1);
      assert !LastPrimary(table, e, k);
    }
  }

  /** The scan succeeds exactly when every message about the interface can be read and the identity is kept, and then has found all. */
  lemma {:induction false} ScanOkIff(msgs: seq<AddrMsg>, e: Entry, f: Findings)
    ensures Scan(msgs, e, f).Ok? <==> Listed(msgs, e.index).Some? && IdentityKept(Listed(msgs, e.index).value, e)
    ensures Scan(msgs, e, f).Ok? ==> FoundAll(f, Listed(msgs, e.index).value, e, Scan(msgs, e, f).value)
    decreases |msgs|
  {
    if msgs == [] {
    } else if Skipped(msgs[0], e.index) {
      ScanOkIff(msgs[1..], e, f);
    } else if LiveOf(msgs[0]).Some? {
      var a := LiveOf(msgs[0]).value;
      if Seen(f, e, a).Ok? {
        var next := Seen(f, e, a).value;
        ScanOkIff(msgs[1..], e, next);
        if Listed(msgs[1..], e.index).Some? {
          IdentityMore(a, Listed(msgs[1..], e.index).value, e);
          if Scan(msgs[1..], e, next).Ok? {
            FoundStep(f, a, next, Listed(msgs[1..], e.index).value, e, Scan(msgs, e, f).value);
          }
        }
      } else if Listed(msgs[1..], e.index).Some? {
        IdentityMore(a, Listed(msgs[1..], e.index).value, e);
      }
    }
  }

  lemma IdentityMore(a: Live, table: seq<Live>, e: Entry)
    ensures IdentityKept([a] + table, e) <==> (Mine(a, e) ==> a.bits == e.bits && a.tag == WantedTag(e)) && IdentityKept(table, e)
  {
    var all := [a] + table;
    assert all[0] == a && forall k :: 0 <= k < |table| ==> all[k + 1] == table[k];
  }

  /** The addresses of a dump let a removal go ahead: all readable, the identity kept, the last primary alone in its subnet. */
  ghost predicate AddressesAllow(msgs: seq<AddrMsg>, e: Entry) {
    && Listed(msgs, e.index).Some? && IdentityKept(Listed(msgs, e.index).value, e)
    && !SharesLastPrimary(Listed(msgs, e.index).value, e)
  }

  lemma DecidedOkIff(msgs: seq<AddrMsg>, e: Entry)
    ensures Decided(Scan(msgs, e, NOTHING)).Ok? <==> AddressesAllow(msgs, e)
    ensures Decided(Scan(msgs, e, NOTHING)) == Err(Unsafe) <==>
              && Listed(msgs, e.index).Some? && IdentityKept(Listed(msgs, e.index).value, e)
              && SharesLastPrimary(Listed(msgs, e.index).value, e)
    ensures AddressesAllow(msgs, e) ==>
              (Decided(Scan(msgs, e, NOTHING)).value <==> exists k :: 0 <= k < |Listed(msgs, e.index).value| && Mine(Listed(msgs, e.index).value[k], e))
  {
    ScanOkIff(msgs, e, NOTHING);
    ScanNeverUnsafe(msgs, e, NOTHING);
    if Scan(msgs, e, NOTHING).Ok? {
      var table, g := Listed(msgs, e.index).value, Scan(msgs, e, NOTHING).value;
      if Shares(g) {
        var k: nat :| LastPrimary(table, e, k);
        assert g.primary.value in g.others;
        var j :| 0 <= j < |table| && !Mine(table[j], e) && SubnetOf(table[j].address, table[j].bits) == g.primary.value;
        assert SharesLastPrimary(table, e);
      }
      if SharesLastPrimary(table, e) {
        var k: nat, j: nat :| LastPrimary(table, e, k) && j < |table| && !Mine(table[j], e)
                              && SubnetOf(table[j].address, table[j].bits) == SubnetOf(table[k].address, table[k].bits);
        assert SubnetOf(table[j].address, table[j].bits) in g.others;
      }
    }
  }

  lemma {:induction false} ScanNeverUnsafe(msgs: seq<AddrMsg>, e: Entry, f: Findings)
    ensures Scan(msgs, e, f) != Err(Unsafe)
    decreases |msgs|
  {
    if msgs == [] {
    } else if Skipped(msgs[0], e.index) {
      ScanNeverUnsafe(msgs[1..], e, f);
    } else if LiveOf(msgs[0]).Some? && Seen(f, e, LiveOf(msgs[0]).value).Ok? {
      ScanNeverUnsafe(msgs[1..], e, Seen(f, e, LiveOf(msgs[0]).value).value);
    }
  }

  /** Every link can be read, and none has only one of the entry's interface name and index. */
  predicate LinksAllow(msgs: seq<LinkMsg>, e: Entry) {
    forall m :: m in msgs && m.isLink ==>
      m.complete && m.readable && |m.name| > 0 && (m.name == e.iface <==> m.index == e.index)
  }

  lemma {:induction false} LinkedOkIff(msgs: seq<LinkMsg>, e: Entry, present: bool)
    ensures Linked(msgs, e, present).Ok? <==> LinksAllow(msgs, e)
    decreases |msgs|
  {
    if msgs == [] {
    } else {
      assert msgs == [msgs[0]] + msgs[1..];
      assert forall m :: m in msgs <==> m == msgs[0] || m in msgs[1..];
      LinkedOkIff(msgs[1..], e, present);
      LinkedOkIff(msgs[1..], e, true);
    }
  }

  /**
    Exactly when an inspection succeeds: the links can be read and know the interface by both name and
    index or by neither, and if they know it the addresses are there and allow it and the links say so again.
   */
  lemma InspectionSucceedsIff(d: Dumps, e: Entry)
    ensures Inspected(d, e).Ok? <==>
              && d.before.Some? && LinksAllow(d.before.value, e)
              && (HasLink(d.before.value, e) ==>
                    d.addrs.Some? && AddressesAllow(d.addrs.value, e) && d.after.Some? && LinksAllow(d.after.value, e))
  {
    if d.before.Some? {
      LinkedOkIff(d.before.value, e, false);
      if LinksAllow(d.before.value, e) {
        LinkedMeans(d.before.value, e, false);
        if d.addrs.Some? {
          DecidedOkIff(d.addrs.value, e);
        }
        if d.after.Some? {
          LinkedOkIff(d.after.value, e, false);
        }
      }
    }
  }

  /** The dump lists exactly the addresses the kernel has on the interface. */
  ghost predicate Faithful(msgs: seq<AddrMsg>, index: int, table: seq<Live>) {
    Listed(msgs, index).Some? && forall a :: a in Listed(msgs, index).value <==> a in table && a.index == index
  }

  /** The entry's address with its prefix length is configured on its interface, which is there. */
  ghost predicate IsLive(links: seq<LinkMsg>, table: seq<Live>, e: Entry) {
    HasLink(links, e) && exists a :: a in table && a.index == e.index && Mine(a, e) && a.bits == e.bits
  }

  /** Over faithful dumps of an unchanging system, an inspection that succeeds tells whether the recorded address is live. */
  lemma InspectionTellsIfLive(d: Dumps, e: Entry, links: seq<LinkMsg>, table: seq<Live>)
    requires Inspected(d, e).Ok? && d.before == Some(links) && (d.after.Some? ==> d.after == d.before)
    requires d.addrs.Some? ==> Faithful(d.addrs.value, e.index, table)
    ensures Inspected(d, e).value <==> IsLive(links, table, e)
  {
    InspectionIsAccurate(d, e);
  }

  // ---------------------------------------------------------------- the kernel's deletion

  /** Deleting entry i takes entry k along: k is a secondary of the primary i. */
  predicate Cascades(table: seq<Live>, i: nat, k: nat)
    requires i < |table| && k < |table| && table[i].bits <= 32 && table[k].bits <= 32
  {
    && k != i && !table[i].secondary && table[k].secondary && table[k].index == table[i].index
    && SubnetOf(table[k].address, table[k].bits) == SubnetOf(table[i].address, table[i].bits)
  }

  predicate WellFormed(table: seq<Live>) {
    forall a :: a in table ==> a.bits <= 32
  }

  /** What is left of the entries from k on when entry i is deleted. */
  function Survivors(table: seq<Live>, i: nat, k: nat): seq<Live>
    requires WellFormed(table) && i < |table| && k <= |table|
    decreases |table| - k
  {
    if k == |table| then []
    else if k == i || Cascades(table, i, k) then Survivors(table, i, k + 1)
    else [table[k]] + Survivors(table, i, k + 1)
  }

  function Deleted(table: seq<Live>, i: nat): seq<Live>
    requires WellFormed(table) && i < |table|
  {
    Survivors(table, i, 0)
  }

  lemma {:induction false} NoCascade(table: seq<Live>, i: nat, k: nat)
    requires WellFormed(table) && i < |table| && k <= |table|
    requires forall j :: 0 <= j < |table| ==> !Cascades(table, i, j)
    ensures Survivors(table, i, k) == if k <= i then table[k..i] + table[i + 1..] else table[k..]
    decreases |table| - k
  {
    if k < |table| {
      NoCascade(table, i, k + 1);
      if k < i {
        assert table[k..i] == [table[k]] + table[k + 1..i];
      }
    }
  }

  predicate OneEntryPerAddress(table: seq<Live>, index: int) {
    forall j, k :: 0 <= j < k < |table| && table[j].index == index && table[k].index == index ==> table[j].local != table[k].local
  }

  /**
    Owned removal touches nothing else: if the inspection lets it go ahead, deleting the owned address
    leaves every other address of every interface as it was, and none of its own.
   */
  lemma OwnedRemovalIsExact(msgs: seq<AddrMsg>, e: Entry, table: seq<Live>, i: nat)
    requires Decided(Scan(msgs, e, NOTHING)) == Ok(true)
    requires WellFormed(table) && Faithful(msgs, e.index, table) && OneEntryPerAddress(table, e.index)
    requires i < |table| && table[i].index == e.index && Mine(table[i], e)
    ensures Deleted(table, i) == table[..i] + table[i + 1..]
    ensures forall a :: a in Deleted(table, i) && a.index == e.index ==> !Mine(a, e)
  {
    var listed := Listed(msgs, e.index).value;
    var g := Scan(msgs, e, NOTHING).value;
    ScanSummary(msgs, e, NOTHING);
    assert table[i] in listed;
    forall x | x in listed && Mine(x, e) ensures x == table[i] {
      var k :| 0 <= k < |table| && table[k] == x;
    }
    forall k | 0 <= k < |table| ensures !Cascades(table, i, k) {
      if Cascades(table, i, k) {
        assert table[k] in listed && !Mine(table[k], e);
        ScanPrimary(msgs, e, NOTHING, table[i]);
        assert false;
      }
    }
    NoCascade(table, i, 0);
    assert table[0..i] == table[..i];
    forall a | a in table[..i] + table[i + 1..] && a.index == e.index ensures !Mine(a, e) {
    }
  }

  /** The message the kernel sends for an address. */
  function Tell(a: Live): AddrMsg {
    AddrMsg(true, true, true, a.index, a.bits, a.secondary, true, [Local(Some(a.local)), Address(Some(a.address)), Tag(a.tag)])
  }

  lemma TellRead(a: Live)
    requires a.bits <= 32
    ensures LiveOf(Tell(a)) == Some(a)
  {
    var attrs := Tell(a).attrs;
    var one := Attrs(Some(a.local), None, "");
    var two := Attrs(Some(a.local), Some(a.address), "");
    var got := Attrs(Some(a.local), Some(a.address), a.tag);
    assert attrs[1..] == [Address(Some(a.address)), Tag(a.tag)];
    assert attrs[1..][1..] == [Tag(a.tag)];
    assert attrs[1..][1..][1..] == [];
    assert ReadAttrs(attrs, NO_ATTRS) == ReadAttrs(attrs[1..], one);
    assert ReadAttrs(attrs[1..], one) == ReadAttrs(attrs[1..][1..], two);
    assert ReadAttrs(attrs[1..][1..], two) == ReadAttrs([], got);
  }

  lemma ScanTold(a: Live, rest: seq<AddrMsg>, e: Entry, f: Findings)
    requires a.bits <= 32 && a.index == e.index && Seen(f, e, a).Ok?
    ensures Scan([Tell(a)] + rest, e, f) == Scan(rest, e, Seen(f, e, a).value)
  {
    TellRead(a);
    assert ([Tell(a)] + rest)[1..] == rest;
  }

  /**
    One live entry per address is needed: 10.0.0.5/24 configured a second time with the peer 11.0.0.1
    hides from the inspection that deleting the first takes the secondary 10.0.0.6/24 along.
   */
  lemma SecondPeerHidesSecondary(e: Entry)
    requires e.addr == 0x0a00_0005 && e.bits == 24
    ensures var owned := Live(e.index, e.addr, e.addr, 24, WantedTag(e), false);
            var peer := Live(e.index, e.addr, 0x0b00_0001, 24, WantedTag(e), false);
            var other := Live(e.index, 0x0a00_0006, 0x0a00_0006, 24, WantedTag(e), true);
            && Decided(Scan([Tell(owned), Tell(peer), Tell(other)], e, NOTHING)) == Ok(true)
            && WellFormed([owned, peer, other]) && Deleted([owned, peer, other], 0) == [peer]
  {
    var owned := Live(e.index, e.addr, e.addr, 24, WantedTag(e), false);
    var peer := Live(e.index, e.addr, 0x0b00_0001, 24, WantedTag(e), false);
    var other := Live(e.index, 0x0a00_0006, 0x0a00_0006, 24, WantedTag(e), true);
    Ranges.SmallSpans();
    var near, far := Subnet(0x0a00_0000, 24), Subnet(0x0b00_0000, 24);
    assert SubnetOf(e.addr, 24) == near && SubnetOf(0x0a00_0006, 24) == near && SubnetOf(0x0b00_0001, 24) == far;
    ScanTold(owned, [Tell(peer), Tell(other)], e, NOTHING);
    ScanTold(peer, [Tell(other)], e, Findings(true, Some(near), []));
    ScanTold(other, [], e, Findings(true, Some(far), []));
    assert [Tell(owned), Tell(peer), Tell(other)] == [Tell(owned)] + [Tell(peer), Tell(other)];
    assert [Tell(peer), Tell(other)] == [Tell(peer)] + [Tell(other)];
    assert [Tell(other)] == [Tell(other)] + [];
    assert [] + [near] == [near];
    var table := [owned, peer, other];
    assert !Cascades(table, 0, 1) && Cascades(table, 0, 2);
    assert Survivors(table, 0, 3) == [];
    assert Survivors(table, 0, 2) == [];
    assert Survivors(table, 0, 1) == [peer];
  }

  lemma {:induction false} ScanConcat(xs: seq<AddrMsg>, ys: seq<AddrMsg>, e: Entry, f: Findings)
    requires Scan(xs, e, f).Ok?
    ensures Scan(xs + ys, e, f) == Scan(ys, e, Scan(xs, e, f).value)
    decreases |xs|
  {
    if xs == [] {
      assert xs + ys == ys;
    } else {
      assert (xs + ys)[1..] == xs[1..] + ys;
      ScanConcat(xs[1..], ys, e, if Skipped(xs[0], e.index) then f else Seen(f, e, LiveOf(xs[0]).value).value);
    }
  }

  /** The subnet the inspection compared is the entry's own, or the entry is no primary. */
  ghost predicate Guarded(msgs: seq<AddrMsg>, e: Entry, a: Live)
    requires Scan(msgs, e, NOTHING).Ok? && a.bits <= 32
  {
    a.secondary || Scan(msgs, e, NOTHING).value.primary == Some(SubnetOf(a.address, a.bits))
  }

  /** Any number of entries for the owned address: a guarded deletion that passes takes no other address along. */
  lemma GuardedTakesNoOther(msgs: seq<AddrMsg>, e: Entry, table: seq<Live>, i: nat)
    requires Decided(Scan(msgs, e, NOTHING)) == Ok(true)
    requires WellFormed(table) && Faithful(msgs, e.index, table) && i < |table| && table[i].index == e.index && Mine(table[i], e)
    requires Guarded(msgs, e, table[i])
    ensures forall k :: 0 <= k < |table| && Cascades(table, i, k) ==> Mine(table[k], e)
    ensures KeepsOthers(table, i, e)
  {
    ScanSummary(msgs, e, NOTHING);
    forall k | 0 <= k < |table| && Cascades(table, i, k) ensures Mine(table[k], e) {
      assert table[k] in Listed(msgs, e.index).value;
    }
    forall k | 0 <= k < |table| && !(table[k].index == e.index && Mine(table[k], e))
      ensures table[k] in Deleted(table, i)
    {
      SurvivorsAre(table, i, 0, table[k]);
    }
  }

  /** Deleting entry i leaves every address but the owned one. */
  ghost predicate KeepsOthers(table: seq<Live>, i: nat, e: Entry)
    requires WellFormed(table) && i < |table|
  {
    forall k :: 0 <= k < |table| && !(table[k].index == e.index && Mine(table[k], e)) ==> table[k] in Deleted(table, i)
  }

  lemma {:induction false} SurvivorsAre(table: seq<Live>, i: nat, k: nat, a: Live)
    requires WellFormed(table) && i < |table| && k <= |table|
    ensures a in Survivors(table, i, k) <==> exists j :: k <= j < |table| && j != i && !Cascades(table, i, j) && table[j] == a
    decreases |table| - k
  {
    if k == |table| {
    } else {
      SurvivorsAre(table, i, k + 1, a);
    }
  }

  lemma {:induction false} ListedConcat(xs: seq<AddrMsg>, ys: seq<AddrMsg>, index: int)
    requires Listed(xs, index).Some? && Listed(ys, index).Some?
    ensures Listed(xs + ys, index) == Some(Listed(xs, index).value + Listed(ys, index).value)
    decreases |xs|
  {
    if xs == [] {
      assert xs + ys == ys && Listed(xs, index).value + Listed(ys, index).value == Listed(ys, index).value;
    } else {
      assert (xs + ys)[1..] == xs[1..] + ys && (xs + ys)[0] == xs[0];
      ListedConcat(xs[1..], ys, index);
      var rest, more := Listed(xs[1..], index).value, Listed(ys, index).value;
      if !Skipped(xs[0], index) {
        var a := LiveOf(xs[0]).value;
        assert [a] + (rest + more) == ([a] + rest) + more;
      }
    }
  }

  /** Telling one more address of the interface keeps a dump faithful to the table that has it. */
  lemma FaithfulMore(msgs: seq<AddrMsg>, index: int, table: seq<Live>, y: Live)
    requires Faithful(msgs, index, table) && y.bits <= 32 && y.index == index
    ensures Faithful(msgs + [Tell(y)], index, table + [y])
  {
    TellRead(y);
    assert [Tell(y)][1..] == [];
    assert Listed([], index) == Some([]) && [y] + [] == [y];
    assert !Skipped(Tell(y), index) && Listed([Tell(y)], index) == Some([y]);
    ListedConcat(msgs, [Tell(y)], index);
    var listed := Listed(msgs, index).value;
    forall a ensures a in listed + [y] <==> a in table + [y] && a.index == index {
      assert a in listed + [y] <==> a in listed || a == y;
      assert a in table + [y] <==> a in table || a == y;
    }
  }

  /** What a scan finds when one more address that is not the owned one is told. */
  lemma ScanOther(msgs: seq<AddrMsg>, e: Entry, y: Live)
    requires Scan(msgs, e, NOTHING).Ok? && y.bits <= 32 && y.index == e.index && !Mine(y, e)
    ensures var g := Scan(msgs, e, NOTHING).value;
            Scan(msgs + [Tell(y)], e, NOTHING) == Ok(g.(others := g.others + [SubnetOf(y.address, y.bits)]))
  {
    ScanConcat(msgs, [Tell(y)], e, NOTHING);
    assert [Tell(y)] == [Tell(y)] + [];
    ScanTold(y, [], e, Scan(msgs, e, NOTHING).value);
  }

  /** With this address added to the interface, either the inspection refuses or the deletion of entry i leaves all others. */
  ghost predicate SafeWith(msgs: seq<AddrMsg>, e: Entry, table: seq<Live>, i: nat, y: Live)
    requires WellFormed(table) && i < |table| && y.bits <= 32
  {
    Decided(Scan(msgs + [Tell(y)], e, NOTHING)) == Ok(true) ==> KeepsOthers(table + [y], i, e)
  }

  /**
    Exactly when the inspection protects the deletion of an entry of the owned address: whatever other
    address the interface has besides, deleting the entry either is refused or leaves every other
    address, if and only if the entry is guarded.
   */
  lemma ProtectedIffGuarded(msgs: seq<AddrMsg>, e: Entry, table: seq<Live>, i: nat)
    requires Decided(Scan(msgs, e, NOTHING)) == Ok(true)
    requires WellFormed(table) && Faithful(msgs, e.index, table) && i < |table| && table[i].index == e.index && Mine(table[i], e)
    ensures (forall y: Live :: y.bits <= 32 && y.index == e.index && !Mine(y, e) ==> SafeWith(msgs, e, table, i, y))
            <==> Guarded(msgs, e, table[i])
  {
    if Guarded(msgs, e, table[i]) {
      forall y: Live | y.bits <= 32 && y.index == e.index && !Mine(y, e) ensures SafeWith(msgs, e, table, i, y) {
        ScanOther(msgs, e, y);
        FaithfulMore(msgs, e.index, table, y);
        if Decided(Scan(msgs + [Tell(y)], e, NOTHING)) == Ok(true) {
          GuardedTakesNoOther(msgs + [Tell(y)], e, table + [y], i);
        }
      }
    } else {
      UnguardedLoses(msgs, e, table, i);
    }
  }

  /** The table that shows it: a secondary of the entry's own subnet passes the inspection and goes with the entry. */
  lemma UnguardedLoses(msgs: seq<AddrMsg>, e: Entry, table: seq<Live>, i: nat)
    requires Decided(Scan(msgs, e, NOTHING)) == Ok(true)
    requires WellFormed(table) && Faithful(msgs, e.index, table) && i < |table| && table[i].index == e.index && Mine(table[i], e)
    requires !Guarded(msgs, e, table[i])
    ensures var y := Live(e.index, if e.addr == 0 then 1 else 0, table[i].address, table[i].bits, "", true);
            && !Mine(y, e) && Faithful(msgs + [Tell(y)], e.index, table + [y])
            && Decided(Scan(msgs + [Tell(y)], e, NOTHING)) == Ok(true)
            && y !in Deleted(table + [y], i) && !KeepsOthers(table + [y], i, e)
  {
    var y := Live(e.index, if e.addr == 0 then 1 else 0, table[i].address, table[i].bits, "", true);
    var more := table + [y];
    ScanOther(msgs, e, y);
    FaithfulMore(msgs, e.index, table, y);
    SurvivorsAre(more, i, 0, y);
    assert more[|table|] == y;
  }
}
