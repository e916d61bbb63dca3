/**
  The session on a host: the manager's live addresses are those of the kernel's address table, the
  inspection's dumps tell that table, and a deletion has the kernel's cascade. Nothing about the
  inspection or the cascade is taken for granted here; both are worked out from the table.
 */
module HostSession {
  import opened Bytes
  import opened Wrappers
  import opened Session
  import opened SessionManager
  import opened Owned

  /** Interface names and indexes are one to one. */
  predicate StableLinks(links: seq<LinkMsg>) {
    forall l, m :: l in links && m in links && l.isLink && m.isLink ==> (l.name == m.name <==> l.index == m.index)
  }

  /** The addresses of a table under the names of their interfaces. */
  function LiveSet(links: seq<LinkMsg>, table: seq<Live>): set<Target> {
    set l, a | l in links && a in table && l.isLink && l.index == a.index :: Target(l.name, a.local, a.bits)
  }

  /** The dumps of an inspection may fail, but tell the truth otherwise. */
  ghost predicate Truthfully(d: Dumps, links: seq<LinkMsg>, table: seq<Live>, e: Entry) {
    && (d.before.Some? ==> d.before.value == links) && (d.after.Some? ==> d.after.value == links)
    && (d.addrs.Some? ==> Faithful(d.addrs.value, e.index, table))
  }

  /** The table entry a deletion of the recorded address names. */
  predicate Names(a: Live, e: Entry) {
    a.index == e.index && Mine(a, e) && a.bits == e.bits
  }

  function NamedPlace(table: seq<Live>, e: Entry): (i: nat)
    ensures i <= |table| && (forall k :: 0 <= k < i ==> !Names(table[k], e)) && (i < |table| ==> Names(table[i], e))
  {
    IndexWhere(table, (a: Live) => Names(a, e))
  }

  /** Where the interface is there under the entry's name and index, its address is live when the table has it. */
  lemma LiveIffNamed(links: seq<LinkMsg>, table: seq<Live>, e: Entry)
    requires StableLinks(links) && HasLink(links, e)
    ensures TargetOf(e) in LiveSet(links, table) <==> NamedPlace(table, e) < |table|
  {
    var l :| l in links && l.isLink && l.name == e.iface && l.index == e.index;
    var i := NamedPlace(table, e);
    if i < |table| {
      assert Target(l.name, table[i].local, table[i].bits) in LiveSet(links, table);
    }
    if TargetOf(e) in LiveSet(links, table) {
      var m, a :| m in links && a in table && m.isLink && m.index == a.index && Target(m.name, a.local, a.bits) == TargetOf(e);
      assert Names(a, e);
    }
  }

  /** A live address whose interface the links know by the entry's name or index alone is ruled out by the inspection. */
  lemma LiveHasLink(links: seq<LinkMsg>, table: seq<Live>, e: Entry)
    requires Linked(links, e, false).Ok? && TargetOf(e) in LiveSet(links, table)
    ensures HasLink(links, e)
  {
    LinkedMeans(links, e, false);
    var m, a :| m in links && a in table && m.isLink && m.index == a.index && Target(m.name, a.local, a.bits) == TargetOf(e);
    assert Owned.Named(m, e);
  }

  /** An inspection over truthful dumps is right about whether the address is live. */
  lemma InspectionIsRight(d: Dumps, links: seq<LinkMsg>, table: seq<Live>, e: Entry)
    requires StableLinks(links) && Truthfully(d, links, table, e) && Inspected(d, e).Ok?
    ensures Inspected(d, e).value <==> TargetOf(e) in LiveSet(links, table)
    ensures Inspected(d, e).value ==> HasLink(links, e) && Decided(Scan(d.addrs.value, e, NOTHING)) == Ok(true)
  {
    InspectionTellsIfLive(d, e, links, table);
    LinkedMeans(links, e, false);
    if TargetOf(e) in LiveSet(links, table) {
      LiveHasLink(links, table, e);
    }
    if HasLink(links, e) {
      LiveIffNamed(links, table, e);
      var i := NamedPlace(table, e);
      if i < |table| {
        assert table[i] in table && Names(table[i], e);
      }
    }
  }

  /** What a deletion of the named entry takes from the live addresses besides the named one. */
  function TakenAlong(links: seq<LinkMsg>, table: seq<Live>, e: Entry): set<Target>
    requires WellFormed(table)
  {
    var i := NamedPlace(table, e);
    if i == |table| then {} else LiveSet(links, table) - LiveSet(links, Deleted(table, i)) - {TargetOf(e)}
  }

  lemma InTaken(table: seq<Live>, i: nat, a: Live)
    requires i < |table|
    ensures a in table[..i] + table[i + 1..] <==> exists k :: 0 <= k < |table| && k != i && table[k] == a
  {
    var rest := table[..i] + table[i + 1..];
    if a in rest {
      var k :| 0 <= k < |rest| && rest[k] == a;
      assert table[if k < i then k else k + 1] == a;
    }
    if k :| 0 <= k < |table| && k != i && table[k] == a {
      assert rest[if k < i then k else k - 1] == a;
    }
  }

  /** Taking one entry out takes its address from the live ones and no other, if the interface has the address once. */
  lemma LiveWithout(links: seq<LinkMsg>, table: seq<Live>, i: nat, e: Entry)
    requires StableLinks(links) && HasLink(links, e) && OneEntryPerAddress(table, e.index)
    requires i < |table| && Names(table[i], e)
    ensures LiveSet(links, table[..i] + table[i + 1..]) == LiveSet(links, table) - {TargetOf(e)}
  {
    forall t ensures t in LiveSet(links, table[..i] + table[i + 1..]) <==> t in LiveSet(links, table) && t != TargetOf(e) {
      TakenIsNotLive(links, table, i, e, t);
      OthersStayLive(links, table, i, e, t);
    }
  }

  lemma TakenIsNotLive(links: seq<LinkMsg>, table: seq<Live>, i: nat, e: Entry, t: Target)
    requires StableLinks(links) && HasLink(links, e) && OneEntryPerAddress(table, e.index)
    requires i < |table| && Names(table[i], e)
    ensures t in LiveSet(links, table[..i] + table[i + 1..]) ==> t in LiveSet(links, table) && t != TargetOf(e)
  {
    if t in LiveSet(links, table[..i] + table[i + 1..]) {
      var l, a :| l in links && a in table[..i] + table[i + 1..] && l.isLink && l.index == a.index && Target(l.name, a.local, a.bits) == t;
      InTaken(table, i, a);
    }
  }

  lemma OthersStayLive(links: seq<LinkMsg>, table: seq<Live>, i: nat, e: Entry, t: Target)
    requires StableLinks(links) && HasLink(links, e) && i < |table| && Names(table[i], e)
    ensures t in LiveSet(links, table) && t != TargetOf(e) ==> t in LiveSet(links, table[..i] + table[i + 1..])
  {
    if t in LiveSet(links, table) && t != TargetOf(e) {
      var l, a :| l in links && a in table && l.isLink && l.index == a.index && Target(l.name, a.local, a.bits) == t;
      InTaken(table, i, a);
    }
  }

  /**
    Owned removal, worked out: after an inspection over truthful dumps that found the address, the kernel's
    deletion takes exactly that entry from the table and nothing along.
   */
  lemma DeletionIsExact(d: Dumps, links: seq<LinkMsg>, table: seq<Live>, e: Entry)
    requires StableLinks(links) && WellFormed(table) && OneEntryPerAddress(table, e.index)
    requires Truthfully(d, links, table, e) && Inspected(d, e) == Ok(true)
    ensures var i := NamedPlace(table, e);
            && i < |table| && Deleted(table, i) == table[..i] + table[i + 1..]
            && LiveSet(links, Deleted(table, i)) == LiveSet(links, table) - {TargetOf(e)} && TakenAlong(links, table, e) == {}
  {
    InspectionIsRight(d, links, table, e);
    LiveIffNamed(links, table, e);
    var i := NamedPlace(table, e);
    OwnedRemovalIsExact(d.addrs.value, e, table, i);
    LiveWithout(links, table, i, e);
  }

  // ---------------------------------------------------------------- when an owned removal goes ahead

  /** All three dumps of an inspection are there. */
  predicate Told(d: Dumps) {
    d.before.Some? && d.addrs.Some? && d.after.Some?
  }

  /**
    The table lets the owned address be removed: wherever it is on the interface it has the recorded prefix
    and label, and is a secondary or has no other address of the interface in its subnet.
   */
  predicate TableAllows(table: seq<Live>, e: Entry)
    requires WellFormed(table)
  {
    forall a :: a in table && a.index == e.index && Mine(a, e) ==>
      && a.bits == e.bits && a.tag == WantedTag(e)
      && (a.secondary || forall b :: b in table && b.index == e.index && !Mine(b, e) ==>
            SubnetOf(b.address, b.bits) != SubnetOf(a.address, a.bits))
  }

  lemma ListedAllows(listed: seq<Live>, table: seq<Live>, e: Entry)
    requires WellFormed(table) && WellFormed(listed) && OneEntryPerAddress(table, e.index)
    requires forall a :: a in listed <==> a in table && a.index == e.index
    ensures TableAllows(table, e) <==> IdentityKept(listed, e) && !SharesLastPrimary(listed, e)
  {
    if TableAllows(table, e) {
      forall k | 0 <= k < |listed| && Mine(listed[k], e) ensures listed[k].bits == e.bits && listed[k].tag == WantedTag(e) {
        assert listed[k] in listed;
      }
      forall k: nat, j: nat | LastPrimary(listed, e, k) && j < |listed| && !Mine(listed[j], e)
        ensures SubnetOf(listed[j].address, listed[j].bits) != SubnetOf(listed[k].address, listed[k].bits)
      {
        assert listed[k] in listed && listed[j] in listed;
      }
    } else {
      ListedRefuses(listed, table, e);
    }
  }

  lemma ListedRefuses(listed: seq<Live>, table: seq<Live>, e: Entry)
    requires WellFormed(table) && WellFormed(listed) && OneEntryPerAddress(table, e.index) && !TableAllows(table, e)
    requires forall a :: a in listed <==> a in table && a.index == e.index
    ensures !IdentityKept(listed, e) || SharesLastPrimary(listed, e)
  {
    if IdentityKept(listed, e) {
      forall a | a in listed && Mine(a, e) ensures a.bits == e.bits && a.tag == WantedTag(e) {
        var k :| 0 <= k < |listed| && listed[k] == a;
      }
      var a, b :| a in table && a.index == e.index && Mine(a, e) && !a.secondary && b in table && b.index == e.index && !Mine(b, e)
                  && SubnetOf(b.address, b.bits) == SubnetOf(a.address, a.bits);
      forall x | x in listed && Mine(x, e) ensures x == a {
        SoleEntry(table, e, x, a);
      }
      var k := LastOf(listed, a);
      var j: nat :| j < |listed| && listed[j] == b;
      forall m | k < m < |listed| ensures !Mine(listed[m], e) {
        assert listed[m] in listed;
      }
      assert LastPrimary(listed, e, k);
    }
  }

  lemma SoleEntry(table: seq<Live>, e: Entry, x: Live, y: Live)
    requires OneEntryPerAddress(table, e.index)
    requires x in table && y in table && x.index == e.index && y.index == e.index && Mine(x, e) && Mine(y, e)
    ensures x == y
  {
    var i :| 0 <= i < |table| && table[i] == x;
    var j :| 0 <= j < |table| && table[j] == y;
  }

  /** The last place of a value. */
  lemma {:induction false} LastOf(s: seq<Live>, a: Live) returns (k: nat)
    requires a in s
    ensures k < |s| && s[k] == a && forall m :: k < m < |s| ==> s[m] != a
    decreases |s|
  {
    var n := |s| - 1;
    if s[n] == a {
      k := n;
    } else {
      assert s == s[..n] + [s[n]];
      k := LastOf(s[..n], a);
    }
  }

  /**
    Over full and truthful dumps of a table with one entry per address the inspection succeeds exactly when the
    links know the interface by both name and index or by neither, and the table allows the removal if they know it.
   */
  lemma ToldSucceedsIff(d: Dumps, links: seq<LinkMsg>, table: seq<Live>, e: Entry)
    requires WellFormed(table) && OneEntryPerAddress(table, e.index) && Told(d) && Truthfully(d, links, table, e)
    ensures Inspected(d, e).Ok? <==> LinksAllow(links, e) && (HasLink(links, e) ==> TableAllows(table, e))
  {
    InspectionSucceedsIff(d, e);
    ListedAllows(Listed(d.addrs.value, e.index).value, table, e);
  }

  // ---------------------------------------------------------------- the host

  /** The entry the kernel makes of an added address: a secondary if its subnet has a primary. */
  function Added(table: seq<Live>, e: Entry): Live
    requires WellFormed(table) && e.bits <= 32
  {
    var second := exists a :: a in table && a.index == e.index && !a.secondary && SubnetOf(a.address, a.bits) == SubnetOf(e.addr, e.bits);
    Live(e.index, e.addr, e.addr, e.bits, WantedTag(e), second)
  }

  lemma LiveMore(links: seq<LinkMsg>, table: seq<Live>, e: Entry)
    requires StableLinks(links) && HasLink(links, e) && WellFormed(table) && e.bits <= 32
    ensures WellFormed(table + [Added(table, e)])
    ensures LiveSet(links, table + [Added(table, e)]) == LiveSet(links, table) + {TargetOf(e)}
  {
    var x := Added(table, e);
    var more := table + [x];
    assert forall a :: a in more <==> a in table || a == x;
    var l :| l in links && l.isLink && l.name == e.iface && l.index == e.index;
    assert x in more && Target(l.name, x.local, x.bits) == TargetOf(e);
    forall t ensures t in LiveSet(links, more) <==> t in LiveSet(links, table) || t == TargetOf(e) {
      if t in LiveSet(links, table) {
        var m, a :| m in links && a in table && m.isLink && m.index == a.index && Target(m.name, a.local, a.bits) == t;
        assert a in more;
      }
    }
  }

  /** A process, its links and the kernel's address table. */
  class Host {
    const manager: Manager
    const links: seq<LinkMsg>
    var table: seq<Live>

    ghost predicate Valid()
      reads this, manager
    {
      manager.Valid() && StableLinks(links) && WellFormed(table) && manager.live == LiveSet(links, table)
    }

    constructor (manager: Manager, links: seq<LinkMsg>, table: seq<Live>)
      requires manager.Valid() && StableLinks(links) && WellFormed(table) && manager.live == LiveSet(links, table)
      ensures Valid() && this.manager == manager && this.links == links && this.table == table
    {
      this.manager, this.links, this.table := manager, links, table;
    }

    /** Adds an address to an interface that was looked up; what ip applied is one more entry of the table. */
    method AddContext(e: Entry, a: Answers) returns (r: Result<Entry, Error>)
      requires Valid() && Truthful(a, TargetOf(e) !in manager.live) && (a.loaded ==> HasLink(links, e))
      modifies this, manager
      ensures Valid()
      ensures r.Ok? <==> AddWorks(a, e, old(manager.file))
      ensures r.Ok? ==> r.value == e && Fresh(old(manager.file), e) && manager.file == old(manager.file) + [e] && e.bits <= 32
                        && table == old(table) + [Added(old(table), e)] && manager.live == old(manager.live) + {TargetOf(e)}
      ensures r.Err? ==> if Recordable(a, e, old(manager.file)) then FailedBy(r.error, a) else RefusedBy(r.error, a, e, old(manager.file))
      ensures table == if Recordable(a, e, old(manager.file)) && a.applies then old(table) + [Added(old(table), e)] else old(table)
    {
      var before := manager.live;
      r := manager.AddContext(e, a);
      if manager.live != before {
        LiveMore(links, table, e);
        table := table + [Added(table, e)];
      }
    }

    /**
      Removes the entry's own record and table entry: whatever the inspection met and ip did, either the
      table is as it was, or it has lost exactly the one entry of the owned address.
     */
    method RemoveOwned(e: Entry, d: Dumps, a: Answers) returns (ran: bool, err: Option<Error>)
      requires Valid() && Truthful(a, TargetOf(e) in manager.live)
      requires Truthfully(d, links, table, e) && OneEntryPerAddress(table, e.index)
      modifies this, manager
      ensures Valid()
      ensures OwnedRemoval(old(manager.file), old(manager.live), manager.file, manager.live, e, Inspected(d, e), a.(also := {}), ran, err)
      ensures var i := NamedPlace(old(table), e);
              if ran && a.applies then i < |old(table)| && table == Deleted(old(table), i) == old(table)[..i] + old(table)[i + 1..]
              else table == old(table)
    {
      if Inspected(d, e).Ok? {
        InspectionIsRight(d, links, table, e);
      }
      if Inspected(d, e) == Ok(true) {
        DeletionIsExact(d, links, table, e);
      }
      var i := NamedPlace(table, e);
      ran, err := manager.RemoveOwned(e, d, a.(also := TakenAlong(links, table, e)));
      if ran && a.applies {
        table := Deleted(table, i);
      }
    }
  }

  /**
    The removal that has to succeed: the entry's record is the only one about its address, which is live with the
    recorded prefix and label, a secondary or alone in its subnet; the dumps are full, and everything works. Then
    whatever satisfies the contract of an owned removal runs ip and leaves neither record nor live address.
   */
  lemma AllowedIsRemoved(d: Dumps, links: seq<LinkMsg>, table: seq<Live>, file: seq<Entry>, file': seq<Entry>, live': set<Target>,
                         e: Entry, a: Answers, ran: bool, err: Option<Error>)
    requires StableLinks(links) && WellFormed(table) && OneEntryPerAddress(table, e.index) && Told(d) && Truthfully(d, links, table, e)
    requires LinksAllow(links, e) && HasLink(links, e) && TableAllows(table, e) && NamedPlace(table, e) < |table|
    requires FindOwned(file, e).Found? && Truthful(a, true) && Works(a, true) && Complete(e)
    requires OwnedRemoval(file, LiveSet(links, table), file', live', e, Inspected(d, e), a.(also := {}), ran, err)
    ensures ran && a.applies && err.None? && file' == Without(file, FindOwned(file, e).i) && live' == LiveSet(links, table) - {TargetOf(e)}
  {
    ToldSucceedsIff(d, links, table, e);
    LiveIffNamed(links, table, e);
  }

  /** In particular a recorded secondary address, whatever else is in its subnet, is removed. */
  lemma SecondaryAllowed(table: seq<Live>, e: Entry)
    requires WellFormed(table) && OneEntryPerAddress(table, e.index)
    requires var i := NamedPlace(table, e); i < |table| && table[i].secondary && table[i].tag == WantedTag(e)
    ensures TableAllows(table, e)
  {
    forall a | a in table && a.index == e.index && Mine(a, e) ensures a == table[NamedPlace(table, e)] {
      SoleEntry(table, e, a, table[NamedPlace(table, e)]);
    }
  }
}
