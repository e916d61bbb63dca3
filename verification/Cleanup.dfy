/**
  The guide's cleanup (cmd/wirepup/cmd_guide.go): it keeps the entries of the addresses it added and at
  the end removes them, last first. What the order is for shows when an address was added twice.
 */
module Cleanup {
  import opened Bytes
  import opened Wrappers
  import opened Session
  import opened SessionManager
  import opened HostSession
  import Owned

  /** Neither a record about the entry's address nor the address itself is left. */
  predicate Gone(file: seq<Entry>, live: set<Target>, e: Entry) {
    FindOwned(file, e).Missing? && TargetOf(e) !in live
  }

  lemma DroppedIsMissing(file: seq<Entry>, e: Entry, i: nat)
    requires FindOwned(file, e) == Found(i)
    ensures i < |file| && file[i] == e && FindOwned(Without(file, i), e).Missing?
  {
    var w := Without(file, i);
    OwnedIsSole(file, e);
    OwnedIsSole(w, e);
    forall k | 0 <= k < |w| ensures Unrelated(w[k], e) {
      assert w[k] == file[if k < i then k else k + 1];
    }
  }

  lemma MissingStays(file: seq<Entry>, i: nat, e: Entry)
    requires i < |file| && FindOwned(file, e).Missing?
    ensures FindOwned(Without(file, i), e).Missing?
  {
    var w := Without(file, i);
    OwnedIsSole(file, e);
    OwnedIsSole(w, e);
    forall k | 0 <= k < |w| ensures Unrelated(w[k], e) {
      assert w[k] == file[if k < i then k else k + 1];
    }
  }

  lemma InWithout(file: seq<Entry>, i: nat, x: Entry)
    requires i < |file|
    ensures x in Without(file, i) ==> x in file
    ensures x in file && x != file[i] ==> x in Without(file, i)
  {
    var w := Without(file, i);
    if x in w {
      var k :| 0 <= k < |w| && w[k] == x;
      assert x == file[if k < i then k else k + 1];
    }
    if x in file && x != file[i] {
      var k :| 0 <= k < |file| && file[k] == x;
      assert w[if k < i then k else k - 1] == x;
    }
  }

  // ---------------------------------------------------------------- cleanup as a function

  datatype Outcome = Outcome(file: seq<Entry>, live: set<Target>, ok: bool)

  /** One owned removal when everything it asks for works. */
  function CleanOne(file: seq<Entry>, live: set<Target>, e: Entry): Outcome {
    match FindOwned(file, e)
    case Found(i) => Outcome(Without(file, i), live - {TargetOf(e)}, true)
    case Missing => Outcome(file, live, TargetOf(e) !in live)
    case Changed => Outcome(file, live, false)
  }

  /** The whole cleanup, last entry first; it goes on after a failure. */
  function CleanAll(file: seq<Entry>, live: set<Target>, entries: seq<Entry>): Outcome
    decreases |entries|
  {
    if entries == [] then Outcome(file, live, true)
    else
      var n := |entries| - 1;
      var one := CleanOne(file, live, entries[n]);
      var rest := CleanAll(one.file, one.live, entries[..n]);
      rest.(ok := one.ok && rest.ok)
  }

  /** How the guide got where it is: its own adds, those of others, removals by others, and adds and deletions by hand. */
  datatype Event =
    | GuideAdds(e: Entry)
    | OtherAdds(e: Entry)
    | RecordRemoved(i: nat)
    | AddressDeleted(t: Target)
    | AddressAdded(t: Target)

  datatype Ledger = Ledger(file: seq<Entry>, live: set<Target>, entries: seq<Entry>)

  /** Interface names and indexes stay in one-to-one correspondence. */
  predicate SameInterface(x: Entry, y: Entry) {
    x.iface == y.iface <==> x.index == y.index
  }

  predicate StableNames(l: Ledger) {
    && (forall x, y :: x in l.file && y in l.entries ==> SameInterface(x, y))
  }

  predicate Possible(l: Ledger, ev: Event) {
    match ev
    case GuideAdds(e) => Fresh(l.file, e)
    case OtherAdds(e) => Fresh(l.file, e) && e !in l.entries
    case RecordRemoved(i) => i < |l.file|
    case AddressDeleted(_) => true
    case AddressAdded(_) => true
  }

  function Happens(l: Ledger, ev: Event): Ledger
    requires Possible(l, ev)
  {
    match ev
    case GuideAdds(e) => Ledger(l.file + [e], l.live + {TargetOf(e)}, l.entries + [e])
    case OtherAdds(e) => Ledger(l.file + [e], l.live + {TargetOf(e)}, l.entries)
    case RecordRemoved(i) => Ledger(Without(l.file, i), l.live - {TargetOf(l.file[i])}, l.entries)
    case AddressDeleted(t) => l.(live := l.live - {t})
    case AddressAdded(t) => l.(live := l.live + {t})
  }

  function History(l: Ledger, events: seq<Event>): Option<Ledger>
    decreases |events|
  {
    if events == [] then Some(l)
    else if Possible(l, events[0]) then History(Happens(l, events[0]), events[1..])
    else None
  }

  /** The record is the guide's, and the guide has added its address only earlier or with this record. */
  predicate LatestOwn(entries: seq<Entry>, x: Entry, m: nat) {
    m < |entries| && entries[m] == x && forall j :: m < j < |entries| ==> !SameAddress(entries[j], x)
  }

  ghost predicate OwnRecordsLatest(file: seq<Entry>, entries: seq<Entry>) {
    forall x :: x in file && x in entries ==> exists m: nat :: LatestOwn(entries, x, m)
  }

  ghost predicate LedgerInv(l: Ledger) {
    Unique(l.file) && OwnRecordsLatest(l.file, l.entries)
  }

  lemma AddKeepsLedger(l: Ledger, e: Entry, own: bool)
    requires LedgerInv(l) && Possible(l, if own then GuideAdds(e) else OtherAdds(e))
    ensures LedgerInv(Happens(l, if own then GuideAdds(e) else OtherAdds(e)))
  {
    var n := Happens(l, if own then GuideAdds(e) else OtherAdds(e));
    forall x | x in n.file && x in n.entries ensures exists m: nat :: LatestOwn(n.entries, x, m) {
      if x == e {
        assert LatestOwn(n.entries, x, |l.entries|);
      } else {
        var m: nat :| LatestOwn(l.entries, x, m);
        assert LatestOwn(n.entries, x, m);
      }
    }
  }

  lemma RemovalKeepsLedger(l: Ledger, i: nat)
    requires LedgerInv(l) && i < |l.file|
    ensures LedgerInv(Happens(l, RecordRemoved(i)))
  {
    var n := Happens(l, RecordRemoved(i));
    UniqueWithout(l.file, i);
    forall x ensures x in n.file ==> x in l.file {
      InWithout(l.file, i, x);
    }
  }

  lemma {:induction false} HistoryKeepsLedger(l: Ledger, events: seq<Event>)
    requires LedgerInv(l) && History(l, events).Some?
    ensures LedgerInv(History(l, events).value)
    decreases |events|
  {
    if events == [] {
    } else {
      match events[0] {
        case GuideAdds(e) => AddKeepsLedger(l, e, true);
        case OtherAdds(e) => AddKeepsLedger(l, e, false);
        case RecordRemoved(i) => RemovalKeepsLedger(l, i);
        case AddressDeleted(_) =>
        case AddressAdded(_) =>
      }
      HistoryKeepsLedger(Happens(l, events[0]), events[1..]);
    }
  }

  // ---------------------------------------------------------------- when cleanup succeeds

  /** Another process has recorded an address the guide had added. */
  predicate Foreign(file: seq<Entry>, entries: seq<Entry>, x: Entry) {
    x in file && x !in entries && exists e :: e in entries && SameAddress(x, e)
  }

  lemma {:induction false} ForeignFails(file: seq<Entry>, live: set<Target>, entries: seq<Entry>, x: Entry)
    requires Foreign(file, entries, x)
    ensures !CleanAll(file, live, entries).ok
    decreases |entries|
  {
    var n := |entries| - 1;
    var e := entries[n];
    var one := CleanOne(file, live, e);
    OwnedIsSole(file, e);
    var k :| 0 <= k < |file| && file[k] == x;
    if SameAddress(x, e) {
      assert !Unrelated(file[k], e);
      assert FindOwned(file, e).Changed?;
    } else {
      if FindOwned(file, e).Found? {
        InWithout(file, FindOwned(file, e).i, x);
      }
      var y :| y in entries && SameAddress(x, y);
      assert y in entries[..n];
      ForeignFails(one.file, one.live, entries[..n], x);
    }
  }

  /** One of the guide's addresses is live although no record says so. */
  predicate Unbacked(file: seq<Entry>, live: set<Target>, entries: seq<Entry>, e: Entry) {
    e in entries && TargetOf(e) in live && !Recorded(file, TargetOf(e))
  }

  lemma {:induction false} UnbackedFails(file: seq<Entry>, live: set<Target>, entries: seq<Entry>, e: Entry)
    requires Unbacked(file, live, entries, e)
    ensures !CleanAll(file, live, entries).ok
    decreases |entries|
  {
    var n := |entries| - 1;
    var last := entries[n];
    var one := CleanOne(file, live, last);
    if one.ok {
      var r := FindOwned(file, last);
      if r.Found? {
        assert last in file;
        forall x | x in one.file ensures x in file {
          InWithout(file, r.i, x);
        }
      }
      assert TargetOf(e) in one.live && !Recorded(one.file, TargetOf(e));
      assert entries == entries[..n] + [last];
      UnbackedFails(one.file, one.live, entries[..n], e);
    }
  }

  /** Nothing on record or live stands in the way of the cleanup. */
  ghost predicate Clear(l: Ledger) {
    && (forall x :: !Foreign(l.file, l.entries, x))
    && (forall e :: !Unbacked(l.file, l.live, l.entries, e))
  }

  /** With nothing in the way, the last entry is the one on record or its address is gone. */
  lemma LastOneCleans(l: Ledger)
    requires LedgerInv(l) && StableNames(l) && l.entries != [] && Clear(l)
    ensures var n := |l.entries| - 1;
            var one := CleanOne(l.file, l.live, l.entries[n]);
            one.ok && FindOwned(one.file, l.entries[n]).Missing? && TargetOf(l.entries[n]) !in one.live
  {
    var n := |l.entries| - 1;
    var e := l.entries[n];
    OwnedIsSole(l.file, e);
    forall k | 0 <= k < |l.file| && SameAddress(l.file[k], e) ensures l.file[k] == e {
      assert !Foreign(l.file, l.entries, l.file[k]);
      var m: nat :| LatestOwn(l.entries, l.file[k], m);
      assert m < n ==> !SameAddress(l.entries[n], l.file[k]);
    }
    forall k | 0 <= k < |l.file| && l.file[k] != e ensures Unrelated(l.file[k], e) {
      assert SameInterface(l.file[k], e);
    }
    if TargetOf(e) in l.live {
      assert !Unbacked(l.file, l.live, l.entries, e);
      var x :| x in l.file && TargetOf(x) == TargetOf(e);
      assert SameAddress(x, e);
    }
    if i: nat :| i < |l.file| && l.file[i] == e {
      assert OnlyAt(l.file, e, i) by {
        forall k | 0 <= k < |l.file| && k != i ensures Unrelated(l.file[k], e) {
          assert k < i ==> !SameAddress(l.file[k], l.file[i]);
          assert i < k ==> !SameAddress(l.file[i], l.file[k]);
        }
      }
      DroppedIsMissing(l.file, e, i);
    }
  }

  /** What one removal leaves is on record, is not the entry's, and belongs to the guide as before. */
  lemma CleaningLeaves(l: Ledger, x: Entry)
    requires LedgerInv(l) && StableNames(l) && l.entries != [] && Clear(l)
    ensures var n := |l.entries| - 1;
            x in CleanOne(l.file, l.live, l.entries[n]).file ==>
              x in l.file && x != l.entries[n] && (x in l.entries <==> x in l.entries[..n])
  {
    var n := |l.entries| - 1;
    var e := l.entries[n];
    var one := CleanOne(l.file, l.live, e);
    LastOneCleans(l);
    OwnedIsSole(one.file, e);
    if FindOwned(l.file, e).Found? {
      InWithout(l.file, FindOwned(l.file, e).i, x);
    }
    assert l.entries == l.entries[..n] + [e];
  }

  /** The ledger after one removal of the cleanup. */
  function AfterLast(l: Ledger): Ledger
    requires l.entries != []
  {
    var n := |l.entries| - 1;
    var one := CleanOne(l.file, l.live, l.entries[n]);
    Ledger(one.file, one.live, l.entries[..n])
  }

  /** After one removal, the rest of the cleanup is in the same position. */
  lemma CleaningKeepsLedger(l: Ledger)
    requires LedgerInv(l) && StableNames(l) && l.entries != [] && Clear(l)
    ensures LedgerInv(AfterLast(l)) && StableNames(AfterLast(l))
    ensures forall x :: !Foreign(AfterLast(l).file, AfterLast(l).entries, x)
  {
    var e := l.entries[|l.entries| - 1];
    var rest := AfterLast(l);
    LastOneCleans(l);
    if FindOwned(l.file, e).Found? {
      RemovalKeepsLedger(l, FindOwned(l.file, e).i);
    }
    forall x ensures x in rest.file ==> x in l.file && x != e && (x in l.entries <==> x in rest.entries) {
      CleaningLeaves(l, x);
    }
    forall x | x in rest.file && x in rest.entries ensures exists m: nat :: LatestOwn(rest.entries, x, m) {
      var m: nat :| LatestOwn(l.entries, x, m);
      assert LatestOwn(rest.entries, x, m);
    }
    assert forall x :: x in rest.entries ==> x in l.entries;
    forall x ensures !Foreign(rest.file, rest.entries, x) {
      assert !Foreign(l.file, l.entries, x);
    }
  }

  lemma CleaningKeepsBacked(l: Ledger, x: Entry)
    requires LedgerInv(l) && StableNames(l) && l.entries != [] && Clear(l)
    ensures !Unbacked(AfterLast(l).file, AfterLast(l).live, AfterLast(l).entries, x)
  {
    var n := |l.entries| - 1;
    var e := l.entries[n];
    var r := FindOwned(l.file, e);
    LastOneCleans(l);
    assert l.entries == l.entries[..n] + [e];
    assert !Unbacked(l.file, l.live, l.entries, x);
    if r.Found? && Recorded(l.file, TargetOf(x)) && TargetOf(x) != TargetOf(e) {
      RecordedWithout(l.file, r.i, TargetOf(x));
    }
  }

  lemma {:induction false} ClearCleanupSucceeds(l: Ledger)
    requires LedgerInv(l) && StableNames(l) && Clear(l)
    ensures CleanAll(l.file, l.live, l.entries).ok
    decreases |l.entries|
  {
    if l.entries == [] {
    } else {
      LastOneCleans(l);
      CleaningKeepsLedger(l);
      forall x ensures !Unbacked(AfterLast(l).file, AfterLast(l).live, AfterLast(l).entries, x) {
        CleaningKeepsBacked(l, x);
      }
      ClearCleanupSucceeds(AfterLast(l));
    }
  }

  /**
    After any history, also one in which the guide added an address again after others removed it, a
    cleanup in which everything works succeeds exactly when no other process has recorded one of the
    guide's addresses since and none of them is live without a record.
   */
  lemma CleanupSucceedsIffClear(live: set<Target>, file: seq<Entry>, events: seq<Event>)
    requires Unique(file) && History(Ledger(file, live, []), events).Some?
    requires StableNames(History(Ledger(file, live, []), events).value)
    ensures var l := History(Ledger(file, live, []), events).value;
            CleanAll(l.file, l.live, l.entries).ok <==> Clear(l)
  {
    var l := History(Ledger(file, live, []), events).value;
    HistoryKeepsLedger(Ledger(file, live, []), events);
    if x :| Foreign(l.file, l.entries, x) {
      ForeignFails(l.file, l.live, l.entries, x);
    } else if e :| Unbacked(l.file, l.live, l.entries, e) {
      UnbackedFails(l.file, l.live, l.entries, e);
    } else {
      ClearCleanupSucceeds(l);
    }
  }

  /** An address the guide lost and someone configured by hand makes the cleanup fail without any foreign record. */
  lemma HandAddedFails(e: Entry)
    ensures var l := Happens(Happens(Happens(Ledger([], {}, []), GuideAdds(e)), RecordRemoved(0)), AddressAdded(TargetOf(e)));
            (forall x :: !Foreign(l.file, l.entries, x)) && !CleanAll(l.file, l.live, l.entries).ok
  {
    var l1 := Happens(Ledger([], {}, []), GuideAdds(e));
    assert l1 == Ledger([e], {TargetOf(e)}, [e]);
    var l := Happens(Happens(l1, RecordRemoved(0)), AddressAdded(TargetOf(e)));
    assert l == Ledger([], {TargetOf(e)}, [e]);
    assert Unbacked(l.file, l.live, l.entries, e);
    UnbackedFails(l.file, l.live, l.entries, e);
  }

  /** The order matters: after an address was added, removed by others and added again, starting with the first entry fails. */
  lemma FirstEntryFirstFails(e: Entry, again: Entry)
    requires SameAddress(e, again) && e != again
    ensures var l := Happens(Happens(Happens(Ledger([], {}, []), GuideAdds(e)), RecordRemoved(0)), GuideAdds(again));
            && l.entries == [e, again] && !CleanOne(l.file, l.live, e).ok
            && CleanAll(l.file, l.live, l.entries) == Outcome([], {}, true)
  {
    var l0 := Ledger([], {}, []);
    var l1 := Happens(l0, GuideAdds(e));
    assert l1 == Ledger([e], {TargetOf(e)}, [e]);
    var l2 := Happens(l1, RecordRemoved(0));
    assert l2 == Ledger([], {}, [e]);
    var l := Happens(l2, GuideAdds(again));
    assert l == Ledger([again], {TargetOf(again)}, [e, again]);
    assert [again][..0] == [];
    assert FindOwned([again], e).Changed?;
    assert FindOwned([again], again) == Found(0);
    assert CleanOne([again], {TargetOf(again)}, again) == Outcome([], {}, true);
    assert [e, again][..1] == [e] && [e][..0] == [];
    assert CleanOne([], {}, e) == Outcome([], {}, true);
    assert CleanAll([], {}, []) == Outcome([], {}, true);
    assert CleanAll([], {}, [e]) == Outcome([], {}, true);
  }


  // ---------------------------------------------------------------- what removals leave

  /** From one file and table to another: nothing new, and nothing but the entries' records and addresses missing. */
  ghost predicate Leaves(file: seq<Entry>, table: seq<Owned.Live>, file': seq<Entry>, table': seq<Owned.Live>, entries: seq<Entry>) {
    && (forall x :: x in file && x !in entries ==> x in file')
    && (forall x :: x in file' ==> x in file)
    && (forall a :: a in table && (forall e :: e in entries ==> !Names(a, e)) ==> a in table')
    && (forall a :: a in table' ==> a in table)
  }

  lemma LeavesMore(f0: seq<Entry>, t0: seq<Owned.Live>, f1: seq<Entry>, t1: seq<Owned.Live>, f2: seq<Entry>, t2: seq<Owned.Live>,
                   entries: seq<Entry>)
    requires Leaves(f0, t0, f1, t1, entries) && Leaves(f1, t1, f2, t2, entries)
    ensures Leaves(f0, t0, f2, t2, entries)
  {
  }

  /** The table with the named entry taken out, if it is there. */
  function Taken(table: seq<Owned.Live>, e: Entry): seq<Owned.Live> {
    var i := NamedPlace(table, e);
    if i < |table| then table[..i] + table[i + 1..] else table
  }

  lemma TakenLeaves(table: seq<Owned.Live>, e: Entry, index: int)
    ensures forall a :: a in Taken(table, e) ==> a in table
    ensures forall a :: a in table && !Names(a, e) ==> a in Taken(table, e)
    ensures Owned.OneEntryPerAddress(table, index) ==> Owned.OneEntryPerAddress(Taken(table, e), index)
  {
    var i := NamedPlace(table, e);
    if i < |table| {
      var t := Taken(table, e);
      forall k | 0 <= k < |t| ensures t[k] == table[if k < i then k else k + 1] {
      }
      forall a | a in table && !Names(a, e) ensures a in t {
        var k :| 0 <= k < |table| && table[k] == a;
        assert t[if k < i then k else k - 1] == a;
      }
    }
  }

  /** What one owned removal does to file and gone addresses. */
  lemma RemovalLeaves(file: seq<Entry>, live: set<Target>, file': seq<Entry>, live': set<Target>, e: Entry, ok: bool)
    requires live' <= live && (!ok ==> file' == file)
    requires ok ==> TargetOf(e) !in live' && match FindOwned(file, e)
                    case Found(i) => file' == Without(file, i)
                    case Missing => file' == file
                    case Changed => false
    ensures forall x :: (x in file' ==> x in file) && (x in file && x != e ==> x in file')
    ensures ok ==> Gone(file', live', e)
    ensures forall x :: Gone(file, live, x) ==> Gone(file', live', x)
  {
    if ok && FindOwned(file, e).Found? {
      var i := FindOwned(file, e).i;
      DroppedIsMissing(file, e, i);
      forall x ensures (x in file' ==> x in file) && (x in file && x != e ==> x in file') {
        InWithout(file, i, x);
      }
      forall x | Gone(file, live, x) ensures Gone(file', live', x) {
        MissingStays(file, i, x);
      }
    }
  }

  // ---------------------------------------------------------------- the guide

  /** What one owned removal meets: the dumps of the table as it is then, and what ip does with an address that is or is not live. */
  datatype Meeting = Meeting(dumps: (seq<Owned.LinkMsg>, seq<Owned.Live>, Entry) -> Owned.Dumps, ip: bool -> Answers)

  /** Dumps may fail but not lie, and ip reports what it did. */
  ghost predicate Honest(m: Meeting, links: seq<Owned.LinkMsg>, e: Entry) {
    && (forall table :: Owned.WellFormed(table) ==> Truthfully(m.dumps(links, table, e), links, table, e))
    && (forall possible :: Truthful(m.ip(possible), possible))
  }

  /** Everything one removal asks for works, and the inspection succeeds. */
  predicate WorksOn(m: Meeting, links: seq<Owned.LinkMsg>, table: seq<Owned.Live>, e: Entry) {
    var possible := TargetOf(e) in LiveSet(links, table);
    Complete(e) && Works(m.ip(possible), possible) && Owned.Inspected(m.dumps(links, table, e), e).Ok?
  }

  /** The table after a removal in which everything works. */
  function TableAfter(file: seq<Entry>, links: seq<Owned.LinkMsg>, table: seq<Owned.Live>, e: Entry): seq<Owned.Live> {
    if FindOwned(file, e).Found? && TargetOf(e) in LiveSet(links, table) then Taken(table, e) else table
  }

  /** At every removal of the cleanup, last entry first, everything works. */
  predicate Smooth(file: seq<Entry>, links: seq<Owned.LinkMsg>, table: seq<Owned.Live>, entries: seq<Entry>, meetings: seq<Meeting>)
    requires |entries| == |meetings|
    decreases |entries|
  {
    entries == [] ||
    var n := |entries| - 1;
    && WorksOn(meetings[n], links, table, entries[n])
    && Smooth(CleanOne(file, LiveSet(links, table), entries[n]).file, links, TableAfter(file, links, table, entries[n]), entries[..n], meetings[..n])
  }

  /** The guide's part of an interaction: its host and the entries it has added. */
  class Guide {
    const host: Host
    var entries: seq<Entry>

    constructor (host: Host)
      ensures this.host == host && entries == []
    {
      this.host := host;
      entries := [];
    }

    /** An operation that adds an address adds its entry only if the address was recorded and applied. */
    method Connect(e: Entry, a: Answers) returns (ok: bool)
      requires host.Valid() && Truthful(a, TargetOf(e) !in host.manager.live) && (a.loaded ==> Owned.HasLink(host.links, e))
      modifies this, host, host.manager
      ensures host.Valid()
      ensures ok <==> AddWorks(a, e, old(host.manager.file))
      ensures ok ==> Possible(old(Ledger(host.manager.file, host.manager.live, entries)), GuideAdds(e))
                     && Ledger(host.manager.file, host.manager.live, entries) == Happens(old(Ledger(host.manager.file, host.manager.live, entries)), GuideAdds(e))
      ensures !ok ==> entries == old(entries)
    {
      var r := host.AddContext(e, a);
      ok := r.Ok?;
      if ok {
        entries := entries + [r.value];
      }
    }

    /** One removal of the cleanup. */
    method RemoveEntry(e: Entry, m: Meeting) returns (ok: bool)
      requires host.Valid() && Honest(m, host.links, e) && Owned.OneEntryPerAddress(host.table, e.index)
      modifies host, host.manager
      ensures host.Valid()
      ensures host.table == old(host.table) || host.table == Taken(old(host.table), e)
      ensures forall x :: (x in host.manager.file ==> x in old(host.manager.file)) && (x in old(host.manager.file) && x != e ==> x in host.manager.file)
      ensures ok ==> Gone(host.manager.file, host.manager.live, e)
      ensures forall x :: old(Gone(host.manager.file, host.manager.live, x)) ==> Gone(host.manager.file, host.manager.live, x)
      ensures old(WorksOn(m, host.links, host.table, e)) ==>
                && Outcome(host.manager.file, host.manager.live, ok) == CleanOne(old(host.manager.file), old(host.manager.live), e)
                && host.table == TableAfter(old(host.manager.file), host.links, old(host.table), e)
    {
      ghost var file, live := host.manager.file, host.manager.live;
      var answers := m.ip(TargetOf(e) in host.manager.live);
      var ran, err := host.RemoveOwned(e, m.dumps(host.links, host.table, e), answers);
      ok := err.None?;
      assert host.manager.live == if ran && answers.applies then live - {TargetOf(e)} else live;
      RemovalLeaves(file, live, host.manager.file, host.manager.live, e, ok);
    }
  
    /** The removal of entry i, when those after it are done; f0, l0 and t0 are what the cleanup began with. */
    method RemoveNext(meetings: seq<Meeting>, i: nat, ok: bool, ghost f0: seq<Entry>, ghost l0: set<Target>, ghost t0: seq<Owned.Live>)
      returns (ok': bool)
      requires host.Valid() && i < |entries| == |meetings| && Honest(meetings[i], host.links, entries[i])
      requires Underway(f0, l0, t0, entries, meetings, host.links, host.manager.file, host.manager.live, host.table, i + 1, ok)
      modifies host, host.manager
      ensures host.Valid()
      ensures Underway(f0, l0, t0, entries, meetings, host.links, host.manager.file, host.manager.live, host.table, i, ok')
    {
      ghost var file, live, table := host.manager.file, host.manager.live, host.table;
      CourseGoesOn(f0, l0, entries, file, live, host.links, table, meetings, i, ok);
      var one := RemoveEntry(entries[i], meetings[i]);
      OneLeaves(file, table, host.manager.file, host.table, entries, i);
      LeavesMore(f0, t0, file, table, host.manager.file, host.table, entries);
      ok' := ok && one;
    }

    /** Removes the guide's addresses, last first, and goes on after a failure. */
    method Cleanup(meetings: seq<Meeting>) returns (ok: bool)
      requires host.Valid() && |meetings| == |entries|
      requires forall k :: 0 <= k < |entries| ==> Honest(meetings[k], host.links, entries[k])
      requires forall k :: 0 <= k < |entries| ==> Owned.OneEntryPerAddress(host.table, entries[k].index)
      modifies host, host.manager
      ensures host.Valid()
      ensures ok ==> forall e :: e in entries ==> Gone(host.manager.file, host.manager.live, e)
      ensures Leaves(old(host.manager.file), old(host.table), host.manager.file, host.table, entries)
      ensures old(Smooth(host.manager.file, host.links, host.table, entries, meetings)) ==>
                Outcome(host.manager.file, host.manager.live, ok) == CleanAll(old(host.manager.file), old(host.manager.live), entries)
    {
      ghost var f0, l0, t0 := host.manager.file, host.manager.live, host.table;
      ok := true;
      var i := |entries|;
      CourseStarts(f0, l0, t0, entries, meetings, host.links);
      while i > 0
        invariant 0 <= i <= |entries| && host.Valid()
        invariant Underway(f0, l0, t0, entries, meetings, host.links, host.manager.file, host.manager.live, host.table, i, ok)
      {
        i := i - 1;
        ok := RemoveNext(meetings, i, ok, f0, l0, t0);
      }
      CourseEnds(f0, l0, t0, entries, meetings, host.links, host.manager.file, host.manager.live, host.table, ok);
    }
  }

  /** The cleanup has come down to the first i entries. */
  ghost predicate Underway(f0: seq<Entry>, l0: set<Target>, t0: seq<Owned.Live>, entries: seq<Entry>, meetings: seq<Meeting>,
                           links: seq<Owned.LinkMsg>, file: seq<Entry>, live: set<Target>, table: seq<Owned.Live>, i: nat, ok: bool)
  {
    && i <= |entries| == |meetings|
    && (ok ==> forall k :: i <= k < |entries| ==> Gone(file, live, entries[k]))
    && (forall k :: 0 <= k < |entries| ==> Owned.OneEntryPerAddress(table, entries[k].index))
    && Leaves(f0, t0, file, table, entries)
    && (Smooth(f0, links, t0, entries, meetings) ==> OnCourse(f0, l0, entries, file, live, links, table, meetings, i, ok))
  }

  lemma CourseStarts(f0: seq<Entry>, l0: set<Target>, t0: seq<Owned.Live>, entries: seq<Entry>, meetings: seq<Meeting>, links: seq<Owned.LinkMsg>)
    requires |entries| == |meetings| && l0 == LiveSet(links, t0)
    requires forall k :: 0 <= k < |entries| ==> Owned.OneEntryPerAddress(t0, entries[k].index)
    ensures Underway(f0, l0, t0, entries, meetings, links, f0, l0, t0, |entries|, true)
  {
    assert entries[..|entries|] == entries && meetings[..|entries|] == meetings;
  }

  lemma CourseEnds(f0: seq<Entry>, l0: set<Target>, t0: seq<Owned.Live>, entries: seq<Entry>, meetings: seq<Meeting>, links: seq<Owned.LinkMsg>,
                   file: seq<Entry>, live: set<Target>, table: seq<Owned.Live>, ok: bool)
    requires Underway(f0, l0, t0, entries, meetings, links, file, live, table, 0, ok)
    ensures ok ==> forall e :: e in entries ==> Gone(file, live, e)
    ensures Leaves(f0, t0, file, table, entries)
    ensures Smooth(f0, links, t0, entries, meetings) ==> Outcome(file, live, ok) == CleanAll(f0, l0, entries)
  {
    assert entries[..0] == [];
  }

  /** The first i entries are still to be cleaned, everything will work for them, and the whole cleanup ends as it was to. */
  ghost predicate OnCourse(f0: seq<Entry>, l0: set<Target>, entries: seq<Entry>, file: seq<Entry>, live: set<Target>, links: seq<Owned.LinkMsg>,
                           table: seq<Owned.Live>, meetings: seq<Meeting>, i: nat, ok: bool)
  {
    && i <= |entries| == |meetings| && live == LiveSet(links, table)
    && Smooth(file, links, table, entries[..i], meetings[..i])
    && CleanAll(f0, l0, entries) == (var rest := CleanAll(file, live, entries[..i]); rest.(ok := ok && rest.ok))
  }

  /** The step from i + 1 entries to i. */
  lemma CourseGoesOn(f0: seq<Entry>, l0: set<Target>, entries: seq<Entry>, file: seq<Entry>, live: set<Target>, links: seq<Owned.LinkMsg>,
                     table: seq<Owned.Live>, meetings: seq<Meeting>, i: nat, ok: bool)
    requires i < |entries| == |meetings|
    ensures OnCourse(f0, l0, entries, file, live, links, table, meetings, i + 1, ok) ==>
              var one, table' := CleanOne(file, live, entries[i]), TableAfter(file, links, table, entries[i]);
              && WorksOn(meetings[i], links, table, entries[i])
              && (one.live == LiveSet(links, table') ==> OnCourse(f0, l0, entries, one.file, one.live, links, table', meetings, i, ok && one.ok))
  {
    assert entries[..i + 1][..i] == entries[..i] && meetings[..i + 1][..i] == meetings[..i];
  }

  lemma OneLeaves(file: seq<Entry>, table: seq<Owned.Live>, file': seq<Entry>, table': seq<Owned.Live>, entries: seq<Entry>, i: nat)
    requires i < |entries| && (table' == table || table' == Taken(table, entries[i]))
    requires forall x :: (x in file' ==> x in file) && (x in file && x != entries[i] ==> x in file')
    ensures Leaves(file, table, file', table', entries)
    ensures forall index :: Owned.OneEntryPerAddress(table, index) ==> Owned.OneEntryPerAddress(table', index)
  {
    forall index ensures Owned.OneEntryPerAddress(table, index) ==> Owned.OneEntryPerAddress(table', index) {
      TakenLeaves(table, entries[i], index);
    }
    TakenLeaves(table, entries[i], 0);
    assert entries[i] in entries;
  }
}
