/**
  Correlating searches with the servers that answer them (internal/device/epics.go). Channel Access and
  PVAccess differ only in what identifies a search and a server, so both are instances: K is the key of
  a search and S the key of a server.
 */
module Searches {
  import opened Bytes
  import opened Wrappers

  type Name = seq<byte>

  const MAX_SEARCHES := 10000

  datatype Response<S> = Response(server: S, at: int, ref: nat)

  datatype Search<K, S> = Search(key: K, pv: Name, count: nat, firstSeen: int, lastSeen: int,
                                 responses: seq<Response<S>>, notFound: seq<Response<S>>)

  datatype Server<S> = Server(key: S, pvs: seq<Name>, answers: nat, beacons: nat, firstSeen: int, lastSeen: int)

  /** The live searches, oldest first, and the servers; log holds the key of every search ever inserted, evicted the dropped ones. */
  datatype Book<K, S> = Book(searches: seq<Search<K, S>>, servers: seq<Server<S>>, evicted: seq<Search<K, S>>, log: seq<K>)

  // ---------------------------------------------------------------- names in order

  /** Byte-wise lexicographic order. */
  predicate Below(a: Name, b: Name)
    decreases |a|
  {
    b != [] && (a == [] || a[0] < b[0] || (a[0] == b[0] && Below(a[1..], b[1..])))
  }

  lemma {:induction false} BelowTotal(a: Name, b: Name)
    ensures !(Below(a, b) && Below(b, a)) && (a == b ==> !Below(a, b)) && (a != b ==> Below(a, b) || Below(b, a))
    decreases |a|
  {
    if a != [] && b != [] && a[0] == b[0] {
      BelowTotal(a[1..], b[1..]);
      assert a == [a[0]] + a[1..] && b == [b[0]] + b[1..];
    }
  }

  lemma {:induction false} BelowTransitive(a: Name, b: Name, c: Name)
    requires Below(a, b) && Below(b, c)
    ensures Below(a, c)
    decreases |a|
  {
    if a != [] && a[0] == b[0] == c[0] {
      BelowTransitive(a[1..], b[1..], c[1..]);
    }
  }

  /** Sorted, and without duplicates. */
  predicate Ascending(list: seq<Name>) {
    forall i, j :: 0 <= i < j < |list| ==> Below(list[i], list[j])
  }

  /** How many names of a sorted list come before v. */
  function Rank(list: seq<Name>, v: Name): (r: nat)
    ensures r <= |list| && (forall k :: 0 <= k < r ==> Below(list[k], v)) && (r < |list| ==> !Below(list[r], v))
    decreases |list|
  {
    if list == [] || !Below(list[0], v) then 0 else 1 + Rank(list[1..], v)
  }

  /** The list with v in it once. */
  function AddUnique(list: seq<Name>, v: Name): seq<Name> {
    if v in list then list else list[..Rank(list, v)] + [v] + list[Rank(list, v)..]
  }

  /** What is not before v and not v comes after it. */
  lemma RankSplits(list: seq<Name>, v: Name, k: nat)
    requires Ascending(list) && v !in list && Rank(list, v) <= k < |list|
    ensures Below(v, list[k])
  {
    var n := Rank(list, v);
    assert list[n] in list;
    BelowTotal(list[n], v);
    if k > n {
      BelowTransitive(v, list[n], list[k]);
    }
  }

  /** Inserting v where everything before is below it and everything after above. */
  lemma InsertedAscends(list: seq<Name>, n: nat, v: Name)
    requires Ascending(list) && n <= |list|
    requires forall k :: 0 <= k < n ==> Below(list[k], v)
    requires forall k :: n <= k < |list| ==> Below(v, list[k])
    ensures Ascending(list[..n] + [v] + list[n..])
  {
    var all := list[..n] + [v] + list[n..];
    forall i, j | 0 <= i < j < |all| ensures Below(all[i], all[j]) {
      assert all[i] == if i < n then list[i] else if i == n then v else list[i - 1];
      assert all[j] == if j < n then list[j] else if j == n then v else list[j - 1];
    }
  }

  lemma AddUniqueSorts(list: seq<Name>, v: Name)
    requires Ascending(list)
    ensures Ascending(AddUnique(list, v)) && forall x :: x in AddUnique(list, v) <==> x in list || x == v
  {
    var n := Rank(list, v);
    if v !in list {
      forall k | n <= k < |list| ensures Below(v, list[k]) {
        RankSplits(list, v, k);
      }
      InsertedAscends(list, n, v);
      assert list == list[..n] + list[n..];
    }
  }

  // ---------------------------------------------------------------- places

  function SearchPlace<K(==), S>(searches: seq<Search<K, S>>, key: K): (r: nat)
    ensures r <= |searches| && (forall k :: 0 <= k < r ==> searches[k].key != key) && (r < |searches| ==> searches[r].key == key)
  {
    IndexWhere(searches, (s: Search<K, S>) => s.key == key)
  }

  function ServerPlace<S(==)>(servers: seq<Server<S>>, key: S): (r: nat)
    ensures r <= |servers| && (forall k :: 0 <= k < r ==> servers[k].key != key) && (r < |servers| ==> servers[r].key == key)
  {
    IndexWhere(servers, (v: Server<S>) => v.key == key)
  }

  // ---------------------------------------------------------------- the steps

  /**
    Seek: a search for a name. Meet: a message from a server. Beacon: a beacon of a known server.
    Answer: a known server answers a search; always says whether an answer to an unknown search counts.
   */
  datatype Op<K, S> =
    | Seek(key: K, pv: Name, at: int)
    | Meet(server: S, at: int)
    | Beacon(server: S)
    | Answer(key: K, server: S, found: bool, at: int, ref: nat, always: bool)

  function Sought<K(==), S>(b: Book<K, S>, key: K, pv: Name, at: int): Book<K, S> {
    var i := SearchPlace(b.searches, key);
    if pv == [] then b
    else if i < |b.searches| then
      b.(searches := b.searches[i := b.searches[i].(count := b.searches[i].count + 1, lastSeen := at)])
    else
      var more := b.searches + [Search(key, pv, 1, at, at, [], [])];
      if |more| > MAX_SEARCHES then
        b.(searches := more[1..], evicted := b.evicted + [more[0]], log := b.log + [key])
      else b.(searches := more, log := b.log + [key])
  }

  function Met<S(==)>(servers: seq<Server<S>>, key: S, at: int): seq<Server<S>> {
    var i := ServerPlace(servers, key);
    if i < |servers| then servers[i := servers[i].(lastSeen := at)] else servers + [Server(key, [], 0, 0, at, at)]
  }

  /** The server counts an answer, and lists the name it answered for. */
  function Credited<S>(s: Server<S>, pv: Option<Name>): Server<S> {
    s.(answers := s.answers + 1, pvs := if pv.Some? then AddUnique(s.pvs, pv.value) else s.pvs)
  }

  function Answered<K, S>(s: Search<K, S>, found: bool, r: Response<S>): Search<K, S> {
    if found then s.(responses := s.responses + [r]) else s.(notFound := s.notFound + [r])
  }

  function Do<K(==), S(==)>(b: Book<K, S>, op: Op<K, S>): Book<K, S> {
    match op
    case Seek(key, pv, at) => Sought(b, key, pv, at)
    case Meet(server, at) => b.(servers := Met(b.servers, server, at))
    case Beacon(server) =>
      var j := ServerPlace(b.servers, server);
      if j == |b.servers| then b else b.(servers := b.servers[j := b.servers[j].(beacons := b.servers[j].beacons + 1)])
    case Answer(key, server, found, at, ref, always) =>
      var i, j := SearchPlace(b.searches, key), ServerPlace(b.servers, server);
      if j == |b.servers| then b
      else if i < |b.searches| then
        var s := b.searches[i];
        b.(searches := b.searches[i := Answered(s, found, Response(server, at, ref))],
           servers := if found then b.servers[j := Credited(b.servers[j], Some(s.pv))] else b.servers)
      else if found && always then b.(servers := b.servers[j := Credited(b.servers[j], None)])
      else b
  }

  function Run<K(==), S(==)>(b: Book<K, S>, ops: seq<Op<K, S>>): Book<K, S>
    decreases |ops|
  {
    if ops == [] then b else Run(Do(b, ops[0]), ops[1..])
  }

  function Empty<K, S>(): Book<K, S> {
    Book([], [], [], [])
  }

  // ---------------------------------------------------------------- the searches are the end of a log

  function Keys<K, S>(searches: seq<Search<K, S>>): (r: seq<K>)
    ensures |r| == |searches| && forall i :: 0 <= i < |searches| ==> r[i] == searches[i].key
  {
    if searches == [] then [] else Keys(searches[..|searches| - 1]) + [searches[|searches| - 1].key]
  }

  lemma KeysMore<K, S>(searches: seq<Search<K, S>>, s: Search<K, S>)
    ensures Keys(searches + [s]) == Keys(searches) + [s.key]
  {
    assert (searches + [s])[..|searches|] == searches;
  }

  lemma KeysTail<K, S>(searches: seq<Search<K, S>>)
    requires searches != []
    ensures Keys(searches[1..]) == Keys(searches)[1..]
  {
  }

  predicate Distinct<K(==)>(keys: seq<K>) {
    forall i, j :: 0 <= i < j < |keys| ==> keys[i] != keys[j]
  }

  /** The live searches are the last inserted ones, at most MAX_SEARCHES, each key once. */
  predicate Fifo<K(==), S>(b: Book<K, S>) {
    && b.log == Keys(b.evicted) + Keys(b.searches)
    && |b.searches| == (if |b.log| < MAX_SEARCHES then |b.log| else MAX_SEARCHES)
    && Distinct(Keys(b.searches))
  }

  /** Appending a new key and dropping the first keeps the log in order. */
  lemma LogDrops<K>(log: seq<K>, evicted: seq<K>, keys: seq<K>, key: K)
    requires log == evicted + keys && Distinct(keys) && key !in keys
    ensures Distinct(keys + [key]) && Distinct((keys + [key])[1..])
    ensures log + [key] == evicted + (keys + [key])
    ensures log + [key] == (evicted + [(keys + [key])[0]]) + (keys + [key])[1..]
  {
  }

  lemma InsertedKeepsFifo<K, S>(b: Book<K, S>, key: K, pv: Name, at: int)
    requires Fifo(b) && pv != [] && SearchPlace(b.searches, key) == |b.searches|
    ensures Fifo(Sought(b, key, pv, at))
  {
    var s: Search<K, S> := Search(key, pv, 1, at, at, [], []);
    var more := b.searches + [s];
    KeysMore(b.searches, s);
    LogDrops(b.log, Keys(b.evicted), Keys(b.searches), key);
    if |more| > MAX_SEARCHES {
      KeysMore(b.evicted, more[0]);
      KeysTail(more);
    }
  }

  lemma SoughtKeepsFifo<K, S>(b: Book<K, S>, key: K, pv: Name, at: int)
    requires Fifo(b)
    ensures Fifo(Sought(b, key, pv, at))
  {
    if pv != [] {
      if SearchPlace(b.searches, key) < |b.searches| {
        assert Keys(Sought(b, key, pv, at).searches) == Keys(b.searches);
      } else {
        InsertedKeepsFifo(b, key, pv, at);
      }
    }
  }

  lemma AnswerKeepsFifo<K, S>(b: Book<K, S>, op: Op<K, S>)
    requires Fifo(b) && op.Answer?
    ensures Fifo(Do(b, op))
  {
    assert Keys(Do(b, op).searches) == Keys(b.searches);
  }

  lemma {:induction false} RunKeepsFifo<K, S>(b: Book<K, S>, ops: seq<Op<K, S>>)
    requires Fifo(b)
    ensures Fifo(Run(b, ops))
    decreases |ops|
  {
    if ops == [] {
    } else {
      var op := ops[0];
      if op.Seek? {
        SoughtKeepsFifo(b, op.key, op.pv, op.at);
      } else if op.Answer? {
        AnswerKeepsFifo(b, op);
      }
      RunKeepsFifo(Do(b, op), ops[1..]);
    }
  }

  /** The live searches are always the last 10000 inserted, with distinct keys. */
  lemma SearchesAreLogTail<K, S>(ops: seq<Op<K, S>>)
    ensures var b := Run(Empty<K, S>(), ops);
            && |b.searches| == (if |b.log| < MAX_SEARCHES then |b.log| else MAX_SEARCHES)
            && Keys(b.searches) == b.log[|b.log| - |b.searches|..]
            && Distinct(Keys(b.searches))
  {
    RunKeepsFifo(Empty<K, S>(), ops);
  }

  // ---------------------------------------------------------------- the servers

  predicate ServersInv<S(==)>(servers: seq<Server<S>>) {
    && (forall i, j :: 0 <= i < j < |servers| ==> servers[i].key != servers[j].key)
    && (forall i :: 0 <= i < |servers| ==> Ascending(servers[i].pvs))
  }

  /** The server is known and lists the name. */
  predicate Lists<S(==)>(servers: seq<Server<S>>, key: S, pv: Name) {
    exists i :: 0 <= i < |servers| && servers[i].key == key && pv in servers[i].pvs
  }

  function AnswersOf<S(==)>(servers: seq<Server<S>>, key: S): nat {
    var i := ServerPlace(servers, key);
    if i < |servers| then servers[i].answers else 0
  }

  /** The servers keep their places and lose no name. */
  predicate ServersGrow<S(==)>(servers: seq<Server<S>>, servers': seq<Server<S>>) {
    && |servers| <= |servers'|
    && forall i :: 0 <= i < |servers| ==> servers'[i].key == servers[i].key && forall v :: v in servers[i].pvs ==> v in servers'[i].pvs
  }

  lemma ListsStays<S>(servers: seq<Server<S>>, servers': seq<Server<S>>, key: S, pv: Name)
    requires ServersGrow(servers, servers') && Lists(servers, key, pv)
    ensures Lists(servers', key, pv)
  {
  }

  lemma MetKeepsServers<S>(servers: seq<Server<S>>, key: S, at: int)
    requires ServersInv(servers)
    ensures ServersInv(Met(servers, key, at)) && ServersGrow(servers, Met(servers, key, at))
    ensures ServerPlace(Met(servers, key, at), key) < |Met(servers, key, at)|
    ensures forall k :: AnswersOf(Met(servers, key, at), k) == AnswersOf(servers, k)
  {
    var next := Met(servers, key, at);
    assert next[ServerPlace(servers, key)].key == key;
    forall k ensures AnswersOf(next, k) == AnswersOf(servers, k) {
      SamePlace(servers, next, k);
    }
  }

  /** Where the keys stay, the search for one ends at the same place. */
  lemma SamePlace<S>(servers: seq<Server<S>>, next: seq<Server<S>>, k: S)
    requires |servers| <= |next| && forall i :: 0 <= i < |servers| ==> next[i].key == servers[i].key
    ensures ServerPlace(servers, k) < |servers| ==> ServerPlace(next, k) == ServerPlace(servers, k)
    ensures ServerPlace(servers, k) == |servers| ==> ServerPlace(next, k) >= |servers|
  {
  }

  lemma CreditedKeepsServers<S>(servers: seq<Server<S>>, j: nat, pv: Option<Name>)
    requires ServersInv(servers) && j < |servers|
    ensures var next := servers[j := Credited(servers[j], pv)];
            && ServersInv(next) && ServersGrow(servers, next)
            && (pv.Some? ==> Lists(next, servers[j].key, pv.value))
            && forall k :: AnswersOf(next, k) == AnswersOf(servers, k) + if k == servers[j].key then 1 else 0
  {
    var next := servers[j := Credited(servers[j], pv)];
    if pv.Some? {
      AddUniqueSorts(servers[j].pvs, pv.value);
      assert next[j].key == servers[j].key && pv.value in next[j].pvs;
    }
    forall k ensures AnswersOf(next, k) == AnswersOf(servers, k) + if k == servers[j].key then 1 else 0 {
      SamePlace(servers, next, k);
      assert k == servers[j].key ==> ServerPlace(servers, k) == j;
    }
  }

  lemma BeaconKeepsServers<S>(servers: seq<Server<S>>, j: nat, n: nat)
    requires ServersInv(servers) && j < |servers|
    ensures var next := servers[j := servers[j].(beacons := n)];
            ServersInv(next) && ServersGrow(servers, next) && forall k :: AnswersOf(next, k) == AnswersOf(servers, k)
  {
    var next := servers[j := servers[j].(beacons := n)];
    forall k ensures AnswersOf(next, k) == AnswersOf(servers, k) {
      SamePlace(servers, next, k);
    }
  }

  /** The server a step credits with an answer. */
  function Credits<K(==), S(==)>(b: Book<K, S>, op: Op<K, S>): Option<S> {
    if op.Answer? && op.found && ServerPlace(b.servers, op.server) < |b.servers|
       && (op.always || SearchPlace(b.searches, op.key) < |b.searches|)
    then Some(op.server) else None
  }

  lemma AnswerServers<K, S>(b: Book<K, S>, op: Op<K, S>)
    requires ServersInv(b.servers) && op.Answer?
    ensures ServersInv(Do(b, op).servers) && ServersGrow(b.servers, Do(b, op).servers)
    ensures forall k :: AnswersOf(Do(b, op).servers, k) == AnswersOf(b.servers, k) + if Credits(b, op) == Some(k) then 1 else 0
  {
    var i, j := SearchPlace(b.searches, op.key), ServerPlace(b.servers, op.server);
    if j < |b.servers| && op.found {
      if i < |b.searches| {
        CreditedKeepsServers(b.servers, j, Some(b.searches[i].pv));
      } else if op.always {
        CreditedKeepsServers(b.servers, j, None);
      }
    }
  }

  /** A step keeps the servers' lists sorted and complete, and counts exactly the answers it credits. */
  lemma StepServers<K, S>(b: Book<K, S>, op: Op<K, S>)
    requires ServersInv(b.servers)
    ensures ServersInv(Do(b, op).servers) && ServersGrow(b.servers, Do(b, op).servers)
    ensures forall k :: AnswersOf(Do(b, op).servers, k) == AnswersOf(b.servers, k) + if Credits(b, op) == Some(k) then 1 else 0
  {
    if op.Meet? {
      MetKeepsServers(b.servers, op.server, op.at);
    } else if op.Beacon? {
      var j := ServerPlace(b.servers, op.server);
      if j < |b.servers| {
        BeaconKeepsServers(b.servers, j, b.servers[j].beacons + 1);
      }
    } else if op.Answer? {
      AnswerServers(b, op);
    }
  }

  // ---------------------------------------------------------------- responses and answers

  /** Every response a search holds is from a known server that lists its name. */
  predicate AllListed<K, S(==)>(searches: seq<Search<K, S>>, servers: seq<Server<S>>) {
    forall i, k :: 0 <= i < |searches| && 0 <= k < |searches[i].responses| ==>
      Lists(servers, searches[i].responses[k].server, searches[i].pv)
  }

  predicate Listed<K, S(==)>(b: Book<K, S>) {
    AllListed(b.searches, b.servers) && AllListed(b.evicted, b.servers)
  }

  lemma AllListedStays<K, S>(searches: seq<Search<K, S>>, servers: seq<Server<S>>, servers': seq<Server<S>>)
    requires AllListed(searches, servers) && ServersGrow(servers, servers')
    ensures AllListed(searches, servers')
  {
    forall i, k | 0 <= i < |searches| && 0 <= k < |searches[i].responses|
      ensures Lists(servers', searches[i].responses[k].server, searches[i].pv)
    {
      ListsStays(servers, servers', searches[i].responses[k].server, searches[i].pv);
    }
  }

  function TotalResponses<K, S>(searches: seq<Search<K, S>>): nat
    decreases |searches|
  {
    if searches == [] then 0 else |searches[0].responses| + TotalResponses(searches[1..])
  }

  function TotalAnswers<S>(servers: seq<Server<S>>): nat
    decreases |servers|
  {
    if servers == [] then 0 else servers[0].answers + TotalAnswers(servers[1..])
  }

  lemma {:induction false} ResponsesUpdate<K, S>(searches: seq<Search<K, S>>, i: nat, s: Search<K, S>)
    requires i < |searches|
    ensures TotalResponses(searches[i := s]) == TotalResponses(searches) - |searches[i].responses| + |s.responses|
    decreases |searches|
  {
    if i == 0 {
      assert searches[i := s][1..] == searches[1..];
    } else {
      assert searches[i := s][1..] == searches[1..][i - 1 := s];
      ResponsesUpdate(searches[1..], i - 1, s);
    }
  }

  lemma {:induction false} ResponsesConcat<K, S>(xs: seq<Search<K, S>>, ys: seq<Search<K, S>>)
    ensures TotalResponses(xs + ys) == TotalResponses(xs) + TotalResponses(ys)
    decreases |xs|
  {
    if xs == [] {
      assert xs + ys == ys;
    } else {
      assert (xs + ys)[1..] == xs[1..] + ys;
      ResponsesConcat(xs[1..], ys);
    }
  }

  lemma {:induction false} AnswersUpdate<S>(servers: seq<Server<S>>, j: nat, v: Server<S>)
    requires j < |servers|
    ensures TotalAnswers(servers[j := v]) == TotalAnswers(servers) - servers[j].answers + v.answers
    decreases |servers|
  {
    if j == 0 {
      assert servers[j := v][1..] == servers[1..];
    } else {
      assert servers[j := v][1..] == servers[1..][j - 1 := v];
      AnswersUpdate(servers[1..], j - 1, v);
    }
  }

  lemma {:induction false} AnswersAppend<S>(servers: seq<Server<S>>, v: Server<S>)
    ensures TotalAnswers(servers + [v]) == TotalAnswers(servers) + v.answers
    decreases |servers|
  {
    if servers == [] {
      assert servers + [v] == [v] && [v][1..] == [];
    } else {
      assert (servers + [v])[1..] == servers[1..] + [v];
      AnswersAppend(servers[1..], v);
    }
  }

  lemma AllListedSubset<K, S>(xs: seq<Search<K, S>>, ys: seq<Search<K, S>>, servers: seq<Server<S>>)
    requires AllListed(xs, servers)
    requires forall i :: 0 <= i < |ys| ==> |ys[i].responses| == 0 || exists j :: 0 <= j < |xs| && xs[j].pv == ys[i].pv && xs[j].responses == ys[i].responses
    ensures AllListed(ys, servers)
  {
    forall i, k | 0 <= i < |ys| && 0 <= k < |ys[i].responses| ensures Lists(servers, ys[i].responses[k].server, ys[i].pv) {
      var j :| 0 <= j < |xs| && xs[j].pv == ys[i].pv && xs[j].responses == ys[i].responses;
      assert xs[j].responses[k] == ys[i].responses[k];
    }
  }

  lemma SoughtKeepsListed<K, S>(b: Book<K, S>, key: K, pv: Name, at: int)
    requires Listed(b)
    ensures Listed(Sought(b, key, pv, at))
  {
    var n := Sought(b, key, pv, at);
    var i := SearchPlace(b.searches, key);
    var more: seq<Search<K, S>> := b.searches + [Search(key, pv, 1, at, at, [], [])];
    assert forall j :: 0 <= j < |b.searches| ==> more[j] == b.searches[j];
    if pv != [] {
      if i < |b.searches| {
        assert forall j :: 0 <= j < |b.searches| ==> n.searches[j].pv == b.searches[j].pv && n.searches[j].responses == b.searches[j].responses;
        AllListedSubset(b.searches, n.searches, b.servers);
      } else {
        AllListedSubset(b.searches, more, b.servers);
        if |more| > MAX_SEARCHES {
          assert forall j :: 0 <= j < |more| - 1 ==> more[1..][j] == more[j + 1];
        }
      }
    }
  }

  lemma AnswerKeepsListed<K, S>(b: Book<K, S>, op: Op<K, S>)
    requires Listed(b) && ServersInv(b.servers) && op.Answer?
    ensures Listed(Do(b, op))
  {
    var n := Do(b, op);
    var i, j := SearchPlace(b.searches, op.key), ServerPlace(b.servers, op.server);
    StepServers(b, op);
    AllListedStays(b.searches, b.servers, n.servers);
    AllListedStays(b.evicted, b.servers, n.servers);
    if i < |b.searches| && j < |b.servers| && op.found {
      CreditedKeepsServers(b.servers, j, Some(b.searches[i].pv));
      forall m, k | 0 <= m < |n.searches| && 0 <= k < |n.searches[m].responses|
        ensures Lists(n.servers, n.searches[m].responses[k].server, n.searches[m].pv)
      {
        if m != i || k < |b.searches[i].responses| {
          assert Lists(n.servers, b.searches[m].responses[k].server, b.searches[m].pv);
        }
      }
    }
  }

  lemma StepKeepsListed<K, S>(b: Book<K, S>, op: Op<K, S>)
    requires Listed(b) && ServersInv(b.servers)
    ensures Listed(Do(b, op))
  {
    if op.Seek? {
      SoughtKeepsListed(b, op.key, op.pv, op.at);
    } else if op.Answer? {
      AnswerKeepsListed(b, op);
    } else {
      StepServers(b, op);
      AllListedStays(b.searches, b.servers, Do(b, op).servers);
      AllListedStays(b.evicted, b.servers, Do(b, op).servers);
    }
  }

  lemma {:induction false} RunKeepsListed<K, S>(b: Book<K, S>, ops: seq<Op<K, S>>)
    requires Listed(b) && ServersInv(b.servers)
    ensures Listed(Run(b, ops)) && ServersInv(Run(b, ops).servers)
    decreases |ops|
  {
    if ops == [] {
    } else {
      StepKeepsListed(b, ops[0]);
      StepServers(b, ops[0]);
      RunKeepsListed(Do(b, ops[0]), ops[1..]);
    }
  }

  /** Every response on a search, live or evicted, is from a known server whose sorted names include the search's. */
  lemma ResponsesAreListed<K, S>(ops: seq<Op<K, S>>)
    ensures Listed(Run(Empty<K, S>(), ops)) && ServersInv(Run(Empty<K, S>(), ops).servers)
  {
    RunKeepsListed(Empty<K, S>(), ops);
  }

  /** The responses held by all searches there have been. */
  function Held<K, S>(b: Book<K, S>): nat {
    TotalResponses(b.evicted) + TotalResponses(b.searches)
  }

  lemma SoughtHolds<K, S>(b: Book<K, S>, key: K, pv: Name, at: int)
    ensures Held(Sought(b, key, pv, at)) == Held(b) && Sought(b, key, pv, at).servers == b.servers
  {
    var i := SearchPlace(b.searches, key);
    var s: Search<K, S> := Search(key, pv, 1, at, at, [], []);
    var more := b.searches + [s];
    if i < |b.searches| {
      ResponsesUpdate(b.searches, i, b.searches[i].(count := b.searches[i].count + 1, lastSeen := at));
    }
    ResponsesConcat(b.searches, [s]);
    ResponsesConcat(b.evicted, [more[0]]);
    assert [more[0]][1..] == [] && [s][1..] == [];
    assert TotalResponses([more[0]]) == |more[0].responses| && TotalResponses([s]) == 0;
  }

  /** Answers that count without a known search. */
  function Unclaimed<K(==), S(==)>(b: Book<K, S>, op: Op<K, S>): nat {
    if Credits(b, op).Some? && SearchPlace(b.searches, op.key) == |b.searches| then 1 else 0
  }

  lemma AnswerConserves<K, S>(b: Book<K, S>, op: Op<K, S>)
    requires op.Answer?
    ensures TotalAnswers(Do(b, op).servers) - Held(Do(b, op)) == TotalAnswers(b.servers) - Held(b) + Unclaimed(b, op)
  {
    var i, j := SearchPlace(b.searches, op.key), ServerPlace(b.servers, op.server);
    if j < |b.servers| {
      if i < |b.searches| {
        var s := b.searches[i];
        ResponsesUpdate(b.searches, i, Answered(s, op.found, Response(op.server, op.at, op.ref)));
        AnswersUpdate(b.servers, j, Credited(b.servers[j], Some(s.pv)));
      } else {
        AnswersUpdate(b.servers, j, Credited(b.servers[j], None));
      }
    }
  }

  lemma MetConserves<S>(servers: seq<Server<S>>, key: S, at: int)
    ensures TotalAnswers(Met(servers, key, at)) == TotalAnswers(servers)
  {
    var j := ServerPlace(servers, key);
    if j < |servers| {
      AnswersUpdate(servers, j, servers[j].(lastSeen := at));
    } else {
      AnswersAppend(servers, Server(key, [], 0, 0, at, at));
    }
  }

  lemma StepConserves<K, S>(b: Book<K, S>, op: Op<K, S>)
    ensures TotalAnswers(Do(b, op).servers) - Held(Do(b, op)) == TotalAnswers(b.servers) - Held(b) + Unclaimed(b, op)
  {
    match op
    case Seek(key, pv, at) => SoughtHolds(b, key, pv, at);
    case Meet(server, at) => MetConserves(b.servers, server, at);
    case Beacon(server) =>
      var j := ServerPlace(b.servers, server);
      if j < |b.servers| {
        AnswersUpdate(b.servers, j, b.servers[j].(beacons := b.servers[j].beacons + 1));
      }
    case Answer(_, _, _, _, _, _) => AnswerConserves(b, op);
  }

  predicate NoneAlways<K, S>(ops: seq<Op<K, S>>) {
    forall i :: 0 <= i < |ops| && ops[i].Answer? ==> !ops[i].always
  }

  lemma {:induction false} RunConserves<K, S>(b: Book<K, S>, ops: seq<Op<K, S>>)
    requires NoneAlways(ops)
    ensures TotalAnswers(Run(b, ops).servers) - Held(Run(b, ops)) == TotalAnswers(b.servers) - Held(b)
    decreases |ops|
  {
    if ops == [] {
    } else {
      StepConserves(b, ops[0]);
      RunConserves(Do(b, ops[0]), ops[1..]);
    }
  }

  /** Where only answers to known searches count, the servers' answers sum to the responses all searches ever held. */
  lemma AnswersAreConserved<K, S>(ops: seq<Op<K, S>>)
    requires NoneAlways(ops)
    ensures var b := Run(Empty<K, S>(), ops); TotalAnswers(b.servers) == TotalResponses(b.searches) + TotalResponses(b.evicted)
  {
    RunConserves(Empty<K, S>(), ops);
  }
}
