/**
  Searches and servers as the code keeps them (internal/device/epics.go): records updated in place, each
  reachable through an ordered list and a map, the oldest search dropped when there are too many. Every
  method is proved to do what Searches says.
 */
module SearchTable {
  import opened Bytes
  import opened Wrappers
  import opened Searches

  class SearchRecord<K(==), S(==)> {
    const key: K
    const pv: Name
    const firstSeen: int
    var count: nat
    var lastSeen: int
    var responses: seq<Response<S>>
    var notFound: seq<Response<S>>

    function View(): Search<K, S>
      reads this
    {
      Search(key, pv, count, firstSeen, lastSeen, responses, notFound)
    }

    constructor (key: K, pv: Name, at: int)
      ensures View() == Search(key, pv, 1, at, at, [], [])
    {
      this.key, this.pv, firstSeen, lastSeen, count := key, pv, at, at, 1;
      responses, notFound := [], [];
    }

    method Again(at: int)
      modifies this
      ensures View() == old(View()).(count := old(count) + 1, lastSeen := at)
    {
      count, lastSeen := count + 1, at;
    }

    method Add(found: bool, r: Response<S>)
      modifies this
      ensures View() == Answered(old(View()), found, r)
    {
      if found {
        responses := responses + [r];
      } else {
        notFound := notFound + [r];
      }
    }
  }

  class ServerRecord<S(==)> {
    const key: S
    const firstSeen: int
    var pvs: seq<Name>
    var answers: nat
    var beacons: nat
    var lastSeen: int

    function View(): Server<S>
      reads this
    {
      Server(key, pvs, answers, beacons, firstSeen, lastSeen)
    }

    constructor (key: S, at: int)
      ensures View() == Server(key, [], 0, 0, at, at)
    {
      this.key, firstSeen, lastSeen, pvs, answers, beacons := key, at, at, [], 0, 0;
    }

    method Credit(pv: Option<Name>)
      modifies this
      ensures View() == Credited(old(View()), pv)
    {
      answers := answers + 1;
      if pv.Some? {
        pvs := WithName(pvs, pv.value);
      }
    }
  }

  /** The names with v among them, in order and once. */
  method WithName(list: seq<Name>, v: Name) returns (r: seq<Name>)
    ensures r == AddUnique(list, v)
  {
    for i := 0 to |list|
      invariant v !in list[..i]
    {
      if list[i] == v {
        return list;
      }
      assert list[..i + 1] == list[..i] + [list[i]];
    }
    assert list[..|list|] == list;
    var n := 0;
    while n < |list| && Below(list[n], v)
      invariant n <= |list| && Rank(list, v) == n + Rank(list[n..], v)
    {
      n := n + 1;
    }
    r := list[..n] + [v] + list[n..];
  }

  predicate SearchesIndexed<K(==), S(==)>(searches: map<K, SearchRecord<K, S>>, order: seq<SearchRecord<K, S>>) {
    && (forall i, j :: 0 <= i < j < |order| ==> order[i] != order[j])
    && (forall i :: 0 <= i < |order| ==> order[i].key in searches && searches[order[i].key] == order[i])
    && (forall k :: k in searches ==> searches[k].key == k && searches[k] in order)
  }

  predicate ServersIndexed<S(==)>(servers: map<S, ServerRecord<S>>, order: seq<ServerRecord<S>>) {
    && (forall i, j :: 0 <= i < j < |order| ==> order[i] != order[j])
    && (forall i :: 0 <= i < |order| ==> order[i].key in servers && servers[order[i].key] == order[i])
    && (forall k :: k in servers ==> servers[k].key == k && servers[k] in order)
  }

  lemma SearchesIndexedMore<K, S>(searches: map<K, SearchRecord<K, S>>, order: seq<SearchRecord<K, S>>, s: SearchRecord<K, S>)
    requires SearchesIndexed(searches, order) && s !in order && s.key !in searches
    ensures SearchesIndexed(searches[s.key := s], order + [s])
  {
    forall k | k in searches ensures searches[k] in order + [s] {
      assert searches[k] in order;
    }
    assert s == (order + [s])[|order|];
  }

  /** Removing the first search under the key its fields give leaves map and list in agreement. */
  lemma SearchesIndexedLess<K, S>(searches: map<K, SearchRecord<K, S>>, order: seq<SearchRecord<K, S>>)
    requires SearchesIndexed(searches, order) && order != []
    ensures SearchesIndexed(searches - {order[0].key}, order[1..])
  {
    var less := searches - {order[0].key};
    forall k | k in less ensures less[k].key == k && less[k] in order[1..] {
      var i :| 0 <= i < |order| && order[i] == searches[k];
      assert i > 0 && order[1..][i - 1] == searches[k];
    }
    forall i | 0 <= i < |order| - 1 ensures order[1..][i].key in less && less[order[1..][i].key] == order[1..][i] {
      assert order[1..][i] == order[i + 1];
    }
  }

  lemma ServersIndexedMore<S>(servers: map<S, ServerRecord<S>>, order: seq<ServerRecord<S>>, s: ServerRecord<S>)
    requires ServersIndexed(servers, order) && s !in order && s.key !in servers
    ensures ServersIndexed(servers[s.key := s], order + [s])
  {
    forall k | k in servers ensures servers[k] in order + [s] {
      assert servers[k] in order;
    }
    assert s == (order + [s])[|order|];
  }

  ghost predicate ShowsSearches<K, S>(order: seq<SearchRecord<K, S>>, shown: seq<Search<K, S>>)
    reads order
  {
    |order| == |shown| && forall i :: 0 <= i < |order| ==> shown[i] == order[i].View()
  }

  ghost predicate ShowsServers<S>(order: seq<ServerRecord<S>>, shown: seq<Server<S>>)
    reads order
  {
    |order| == |shown| && forall i :: 0 <= i < |order| ==> shown[i] == order[i].View()
  }

  lemma KnownSearch<K, S>(searches: map<K, SearchRecord<K, S>>, order: seq<SearchRecord<K, S>>, shown: seq<Search<K, S>>, key: K)
    requires SearchesIndexed(searches, order) && |order| == |shown|
    requires forall i :: 0 <= i < |order| ==> shown[i].key == order[i].key
    ensures key in searches <==> SearchPlace(shown, key) < |order|
    ensures key in searches ==> order[SearchPlace(shown, key)] == searches[key]
  {
    if key in searches {
      var k :| 0 <= k < |order| && order[k] == searches[key];
      assert shown[k].key == key;
    }
  }

  lemma KnownServer<S>(servers: map<S, ServerRecord<S>>, order: seq<ServerRecord<S>>, shown: seq<Server<S>>, key: S)
    requires ServersIndexed(servers, order) && |order| == |shown|
    requires forall i :: 0 <= i < |order| ==> shown[i].key == order[i].key
    ensures key in servers <==> ServerPlace(shown, key) < |order|
    ensures key in servers ==> order[ServerPlace(shown, key)] == servers[key]
  {
    if key in servers {
      var k :| 0 <= k < |order| && order[k] == servers[key];
      assert shown[k].key == key;
    }
  }

  lemma KnownAnswer<K, S>(b: Book<K, S>, key: K, server: S, found: bool, at: int, ref: nat, always: bool)
    requires SearchPlace(b.searches, key) < |b.searches| && ServerPlace(b.servers, server) < |b.servers|
    ensures var i, j := SearchPlace(b.searches, key), ServerPlace(b.servers, server);
            Do(b, Op.Answer(key, server, found, at, ref, always)) ==
              b.(searches := b.searches[i := Answered(b.searches[i], found, Response(server, at, ref))],
                 servers := if found then b.servers[j := Credited(b.servers[j], Some(b.searches[i].pv))] else b.servers)
  {
  }

  class Correlator<K(==), S(==)> {
    var searches: map<K, SearchRecord<K, S>>
    var order: seq<SearchRecord<K, S>>
    var servers: map<S, ServerRecord<S>>
    var serverOrder: seq<ServerRecord<S>>
    ghost var book: Book<K, S>

    /** Maps and lists agree, and the records show the book. */
    ghost predicate Valid()
      reads this, order, serverOrder
    {
      && SearchesIndexed(searches, order) && ShowsSearches(order, book.searches)
      && ServersIndexed(servers, serverOrder) && ShowsServers(serverOrder, book.servers)
    }

    constructor ()
      ensures Valid() && book == Empty<K, S>() && order == [] && serverOrder == []
    {
      searches, order, servers, serverOrder, book := map[], [], map[], [], Empty<K, S>();
    }

    /** A search for a name: counted again, or inserted with the oldest dropped if there are too many. */
    method Seek(key: K, pv: Name, at: int)
      requires Valid()
      modifies `searches, `order, `book, order
      ensures Valid() && book == Do(old(book), Op<K, S>.Seek(key, pv, at))
      ensures forall x :: x in order ==> x in old(order) || fresh(x)
    {
      if pv == [] {
        return;
      }
      KnownSearch(searches, order, book.searches, key);
      if key in searches {
        Recount(searches[key], SearchPlace(book.searches, key), at);
      } else {
        Insert(key, pv, at);
      }
    }

    method Recount(s: SearchRecord<K, S>, ghost i: nat, at: int)
      requires Valid() && i < |order| && order[i] == s
      modifies s, `book
      ensures Valid()
      ensures book == old(book).(searches := old(book.searches)[i := old(s.View()).(count := old(s.count) + 1, lastSeen := at)])
    {
      s.Again(at);
      book := book.(searches := book.searches[i := s.View()]);
    }

    method Append(s: SearchRecord<K, S>)
      requires Valid() && s.key !in searches && s !in order
      modifies `searches, `order, `book
      ensures Valid() && order == old(order) + [s]
      ensures book == old(book).(searches := old(book.searches) + [s.View()], log := old(book.log) + [s.key])
    {
      SearchesIndexedMore(searches, order, s);
      searches := searches[s.key := s];
      order := order + [s];
      book := book.(searches := book.searches + [s.View()], log := book.log + [s.key]);
    }

    /** Drops the oldest search, from the map by the key its fields give. */
    method DropOldest()
      requires Valid() && order != []
      modifies `searches, `order, `book
      ensures Valid() && order == old(order)[1..]
      ensures book == old(book).(searches := old(book.searches)[1..], evicted := old(book.evicted) + [old(book.searches)[0]])
    {
      SearchesIndexedLess(searches, order);
      searches := searches - {order[0].key};
      book := book.(searches := book.searches[1..], evicted := book.evicted + [book.searches[0]]);
      order := order[1..];
    }

    method Insert(key: K, pv: Name, at: int)
      requires Valid() && key !in searches && pv != [] && SearchPlace(book.searches, key) == |order|
      modifies `searches, `order, `book
      ensures Valid() && book == Sought(old(book), key, pv, at)
      ensures forall x :: x in order ==> x in old(order) || fresh(x)
    {
      var s := new SearchRecord<K, S>(key, pv, at);
      Append(s);
      if |order| > MAX_SEARCHES {
        DropOldest();
      }
    }

    method AppendServer(v: ServerRecord<S>)
      requires Valid() && v.key !in servers && v !in serverOrder
      modifies `servers, `serverOrder, `book
      ensures Valid() && serverOrder == old(serverOrder) + [v] && servers == old(servers)[v.key := v]
      ensures book == old(book).(servers := old(book.servers) + [v.View()])
    {
      ServersIndexedMore(servers, serverOrder, v);
      servers := servers[v.key := v];
      serverOrder := serverOrder + [v];
      book := book.(servers := book.servers + [v.View()]);
    }

    method Refresh(v: ServerRecord<S>, ghost j: nat, at: int)
      requires Valid() && j < |serverOrder| && serverOrder[j] == v
      modifies v, `book
      ensures Valid() && book == old(book).(servers := old(book.servers)[j := old(v.View()).(lastSeen := at)])
    {
      v.lastSeen := at;
      book := book.(servers := book.servers[j := v.View()]);
    }

    /** Finds or creates the server of a message. */
    method Meet(key: S, at: int) returns (v: ServerRecord<S>)
      requires Valid()
      modifies `servers, `serverOrder, `book, serverOrder
      ensures Valid() && book == Do(old(book), Op<K, S>.Meet(key, at))
      ensures key in servers && v == servers[key] && v.key == key && v in serverOrder
      ensures forall x :: x in serverOrder ==> x in old(serverOrder) || fresh(x)
    {
      KnownServer(servers, serverOrder, book.servers, key);
      if key in servers {
        v := servers[key];
        Refresh(v, ServerPlace(book.servers, key), at);
      } else {
        v := new ServerRecord<S>(key, at);
        AppendServer(v);
      }
    }

    method Beacon(v: ServerRecord<S>)
      requires Valid() && v.key in servers && servers[v.key] == v
      modifies v, `book
      ensures Valid() && book == Do(old(book), Op<K, S>.Beacon(v.key)) && servers == old(servers)
    {
      KnownServer(servers, serverOrder, book.servers, v.key);
      CountBeacon(v, ServerPlace(book.servers, v.key));
    }

    method CountBeacon(v: ServerRecord<S>, ghost j: nat)
      requires Valid() && j < |serverOrder| && serverOrder[j] == v
      modifies v, `book
      ensures Valid()
      ensures book == old(book).(servers := old(book.servers)[j := old(book.servers)[j].(beacons := old(book.servers)[j].beacons + 1)])
    {
      v.beacons := v.beacons + 1;
      book := book.(servers := book.servers[j := v.View()]);
    }

    /** A known server answers a search; an answer to an unknown search can still count. */
    method Answer(key: K, v: ServerRecord<S>, found: bool, at: int, ref: nat, always: bool)
      requires Valid() && v.key in servers && servers[v.key] == v
      modifies v, order, `book
      ensures Valid() && book == Do(old(book), Op<K, S>.Answer(key, v.key, found, at, ref, always))
    {
      KnownServer(servers, serverOrder, book.servers, v.key);
      KnownSearch(searches, order, book.searches, key);
      ghost var i, j := SearchPlace(book.searches, key), ServerPlace(book.servers, v.key);
      ghost var next := Do(book, Op<K, S>.Answer(key, v.key, found, at, ref, always));
      if key in searches {
        KnownAnswer(book, key, v.key, found, at, ref, always);
        AnswerKnown(searches[key], i, v, j, found, at, ref);
      } else if found && always {
        assert next == book.(servers := book.servers[j := Credited(book.servers[j], None)]);
        CreditServer(v, j, None);
      }
    }

    method AnswerKnown(s: SearchRecord<K, S>, ghost i: nat, v: ServerRecord<S>, ghost j: nat, found: bool, at: int, ref: nat)
      requires Valid() && i < |order| && order[i] == s && j < |serverOrder| && serverOrder[j] == v
      modifies s, v, `book
      ensures Valid()
      ensures book == old(book).(searches := old(book.searches)[i := Answered(old(book.searches)[i], found, Response(v.key, at, ref))],
                                 servers := if found then old(book.servers)[j := Credited(old(book.servers)[j], Some(old(book.searches)[i].pv))]
                                            else old(book.servers))
    {
      AddResponse(s, i, found, Response(v.key, at, ref));
      if found {
        CreditServer(v, j, Some(s.pv));
      }
    }

    method AddResponse(s: SearchRecord<K, S>, ghost i: nat, found: bool, r: Response<S>)
      requires Valid() && i < |order| && order[i] == s
      modifies s, `book
      ensures Valid() && book == old(book).(searches := old(book.searches)[i := Answered(old(book.searches)[i], found, r)])
    {
      s.Add(found, r);
      book := book.(searches := book.searches[i := s.View()]);
    }

    method CreditServer(v: ServerRecord<S>, ghost j: nat, pv: Option<Name>)
      requires Valid() && j < |serverOrder| && serverOrder[j] == v
      modifies v, `book
      ensures Valid() && book == old(book).(servers := old(book.servers)[j := Credited(old(book.servers)[j], pv)])
    {
      v.Credit(pv);
      book := book.(servers := book.servers[j := v.View()]);
    }
  }
}
