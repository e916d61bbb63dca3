/**
  What the search tables know is what was on the wire (internal/device/epics.go): a live search holds
  exactly the replies to it since it was first seen, and a server lists exactly the names of the live
  searches it answered.
 */
module Histories {
  import opened Bytes
  import opened NetIp
  import opened Wrappers
  import opened Searches
  import opened Epics
  import opened PvaReader

  // ---------------------------------------------------------------- one step

  /** The live search under a key. */
  function SearchAt<K(==), S>(searches: seq<Search<K, S>>, key: K): Option<Search<K, S>> {
    var i := SearchPlace(searches, key);
    if i < |searches| then Some(searches[i]) else None
  }

  /** A search for a new name when the table is full drops the oldest search. */
  predicate Drops<K(==), S>(b: Book<K, S>, key: K, oldest: K) {
    SearchPlace(b.searches, key) == |b.searches| >= MAX_SEARCHES && b.searches[0].key == oldest
  }

  /** A search seen once more, or for the first time. */
  function SeenAgain<K, S>(s: Option<Search<K, S>>, key: K, pv: Name, at: int): Search<K, S> {
    match s
    case Some(s) => s.(count := s.count + 1, lastSeen := at)
    case None => Search(key, pv, 1, at, at, [], [])
  }

  lemma UpdatedAt<K, S>(searches: seq<Search<K, S>>, i: nat, s: Search<K, S>, key: K)
    requires i < |searches| && i == SearchPlace(searches, s.key)
    ensures SearchAt(searches[i := s], key) == if key == s.key then Some(s) else SearchAt(searches, key)
  {
    var next := searches[i := s];
    assert forall k :: 0 <= k < |searches| ==> next[k].key == searches[k].key;
    assert SearchPlace(next, key) == SearchPlace(searches, key);
  }

  lemma AppendedAt<K, S>(searches: seq<Search<K, S>>, s: Search<K, S>, key: K)
    requires SearchPlace(searches, s.key) == |searches|
    ensures SearchAt(searches + [s], key) == if key == s.key then Some(s) else SearchAt(searches, key)
  {
    var next := searches + [s];
    assert forall k :: 0 <= k < |searches| ==> next[k] == searches[k];
    assert next[|searches|] == s;
  }

  lemma DroppedAt<K, S>(searches: seq<Search<K, S>>, key: K)
    requires searches != [] && Distinct(Keys(searches))
    ensures SearchAt(searches[1..], key) == if key == searches[0].key then None else SearchAt(searches, key)
  {
    var next := searches[1..];
    assert forall k :: 0 <= k < |next| ==> next[k] == searches[k + 1] && Keys(searches)[k + 1] == next[k].key;
    assert Keys(searches)[0] == searches[0].key;
  }

  lemma InsertedAt<K, S>(b: Book<K, S>, key: K, pv: Name, at: int, other: K)
    requires Fifo(b) && pv != [] && SearchPlace(b.searches, key) == |b.searches|
    ensures SearchAt(Sought(b, key, pv, at).searches, other) ==
              if other == key then Some(Search(key, pv, 1, at, at, [], []))
              else if Drops(b, key, other) then None
              else SearchAt(b.searches, other)
  {
    var s: Search<K, S> := Search(key, pv, 1, at, at, [], []);
    var more := b.searches + [s];
    AppendedAt(b.searches, s, other);
    if |more| > MAX_SEARCHES {
      KeysMore(b.searches, s);
      LogDrops(b.log, Keys(b.evicted), Keys(b.searches), key);
      DroppedAt(more, other);
      assert more[0] == b.searches[0];
    }
  }

  /** What a search does to each live search. */
  lemma SoughtAt<K, S>(b: Book<K, S>, key: K, pv: Name, at: int, other: K)
    requires Fifo(b)
    ensures SearchAt(Sought(b, key, pv, at).searches, other) ==
              if pv == [] then SearchAt(b.searches, other)
              else if other == key then Some(SeenAgain(SearchAt(b.searches, key), key, pv, at))
              else if Drops(b, key, other) then None
              else SearchAt(b.searches, other)
  {
    var i := SearchPlace(b.searches, key);
    if pv != [] {
      if i < |b.searches| {
        UpdatedAt(b.searches, i, b.searches[i].(count := b.searches[i].count + 1, lastSeen := at), other);
      } else {
        InsertedAt(b, key, pv, at, other);
      }
    }
  }

  function Heard<K, S>(s: Option<Search<K, S>>, found: bool, r: Response<S>): Option<Search<K, S>> {
    if s.Some? then Some(Answered(s.value, found, r)) else None
  }

  /** What an answer of a known server does to each live search. */
  lemma AnsweredAt<K, S>(b: Book<K, S>, op: Op<K, S>, other: K)
    requires op.Answer? && ServerPlace(b.servers, op.server) < |b.servers|
    ensures SearchAt(Do(b, op).searches, other) ==
              if other == op.key then Heard(SearchAt(b.searches, other), op.found, Response(op.server, op.at, op.ref))
              else SearchAt(b.searches, other)
  {
    var i := SearchPlace(b.searches, op.key);
    if i < |b.searches| {
      UpdatedAt(b.searches, i, Answered(b.searches[i], op.found, Response(op.server, op.at, op.ref)), other);
    }
  }

  /** A server that is met is known and lists what it did. */
  lemma MetLists<S>(servers: seq<Server<S>>, from: S, at: int, server: S, pv: Name)
    ensures ServerPlace(Met(servers, from, at), from) < |Met(servers, from, at)|
    ensures Lists(Met(servers, from, at), server, pv) <==> Lists(servers, server, pv)
  {
    var next := Met(servers, from, at);
    var j := ServerPlace(servers, from);
    assert next[j].key == from;
    assert forall k :: 0 <= k < |servers| ==> next[k].key == servers[k].key && next[k].pvs == servers[k].pvs;
    if Lists(next, server, pv) {
      var k :| 0 <= k < |next| && next[k].key == server && pv in next[k].pvs;
      assert k < |servers|;
    }
  }

  lemma CreditedLists<S>(servers: seq<Server<S>>, j: nat, name: Option<Name>, server: S, pv: Name)
    requires ServersInv(servers) && j < |servers|
    ensures Lists(servers[j := Credited(servers[j], name)], server, pv) <==>
              Lists(servers, server, pv) || (server == servers[j].key && name == Some(pv))
  {
    var next := servers[j := Credited(servers[j], name)];
    if name.Some? {
      AddUniqueSorts(servers[j].pvs, name.value);
    }
    assert next[j].key == servers[j].key && forall x :: x in next[j].pvs <==> x in servers[j].pvs || name == Some(x);
    assert forall k :: 0 <= k < |servers| && k != j ==> next[k] == servers[k];
  }

  /** An answer makes its server list the name of the live search it answers, if it was found, and nothing else. */
  lemma AnswerLists<K, S>(b: Book<K, S>, op: Op<K, S>, server: S, pv: Name)
    requires ServersInv(b.servers) && op.Answer? && ServerPlace(b.servers, op.server) < |b.servers|
    ensures Lists(Do(b, op).servers, server, pv) <==>
              Lists(b.servers, server, pv) ||
              (server == op.server && op.found && SearchAt(b.searches, op.key).Some? && SearchAt(b.searches, op.key).value.pv == pv)
  {
    var i, j := SearchPlace(b.searches, op.key), ServerPlace(b.servers, op.server);
    if op.found {
      if i < |b.searches| {
        CreditedLists(b.servers, j, Some(b.searches[i].pv), server, pv);
      } else if op.always {
        CreditedLists(b.servers, j, None, server, pv);
      }
    }
  }

  lemma BeaconLists<K, S>(b: Book<K, S>, key: S, server: S, pv: Name)
    ensures Lists(Do(b, Op.Beacon(key)).servers, server, pv) <==> Lists(b.servers, server, pv)
  {
    var next := Do(b, Op<K, S>.Beacon(key)).servers;
    assert |next| == |b.servers| && forall k :: 0 <= k < |next| ==> next[k].key == b.servers[k].key && next[k].pvs == b.servers[k].pvs;
  }

  lemma StepKeepsFifo<K, S>(b: Book<K, S>, op: Op<K, S>)
    requires Fifo(b)
    ensures Fifo(Do(b, op))
  {
    RunOne(b, op);
    RunKeepsFifo(b, [op]);
  }

  // ---------------------------------------------------------------- Channel Access

  predicate Sane<K(==), S(==)>(b: Book<K, S>) {
    Fifo(b) && ServersInv(b.servers)
  }

  lemma CaKeepsSane(b: CaBook, m: CaMessage)
    requires Sane(b)
    ensures Sane(Run(b, CaOps(m)))
  {
    RunKeepsFifo(b, CaOps(m));
    CaStepCounts(b, m, (Invalid, 0));
  }

  predicate CaAnswersKey(m: CaMessage, client: Addr, id: u32) {
    m.CaReply? && m.dst == client && m.id == id
  }

  /**
    What a message does to the live search of a client and id: a search of that client and id is counted
    or begins it, a reply sent to that client with that id is added to it, found ones to the responses
    and the others to notFound, and nothing else changes it, but that it may be the one dropped.
   */
  lemma CaStepSearch(b: CaBook, m: CaMessage, client: Addr, id: u32)
    requires Sane(b)
    ensures var before := SearchAt(b.searches, (client, id));
            SearchAt(Run(b, CaOps(m)).searches, (client, id)) ==
              if m.CaSearch? && m.pv != [] && m.src == client && m.id == id then Some(SeenAgain(before, (client, id), m.pv, m.at))
              else if m.CaSearch? && m.pv != [] && Drops(b, (m.src, m.id), (client, id)) then None
              else if CaAnswersKey(m, client, id) then Heard(before, m.found, Response((m.server, m.port), m.at, m.ref))
              else before
  {
    match m
    case CaSearch(src, other, pv, at, _) =>
      RunOne<CaKey, CaServer>(b, Seek((src, other), pv, at));
      SoughtAt(b, (src, other), pv, at, (client, id));
    case CaReply(found, ip, port, _, dst, other, _, at, ref) =>
      var meet: CaOp, answer: CaOp := Meet((ip, port), at), Answer((dst, other), (ip, port), found, at, ref, true);
      RunTwo(b, meet, answer);
      MetLists(b.servers, (ip, port), at, (ip, port), []);
      AnsweredAt(Do(b, meet), answer, (client, id));
    case CaBeacon(ip, port, _, at, _) =>
      RunTwo(b, Meet((ip, port), at), Op.Beacon((ip, port)));
    case CaOther(_, _) =>
  }

  /** The message is a found reply of the server to the live search for the name. */
  predicate CaFinds(b: CaBook, m: CaMessage, server: CaServer, pv: Name) {
    && m.CaReply? && m.found && (m.server, m.port) == server
    && SearchAt(b.searches, (m.dst, m.id)).Some? && SearchAt(b.searches, (m.dst, m.id)).value.pv == pv
  }

  lemma CaStepNames(b: CaBook, m: CaMessage, server: CaServer, pv: Name)
    requires Sane(b)
    ensures Lists(Run(b, CaOps(m)).servers, server, pv) <==> Lists(b.servers, server, pv) || CaFinds(b, m, server, pv)
  {
    match m
    case CaSearch(src, id, name, at, _) => RunOne<CaKey, CaServer>(b, Seek((src, id), name, at));
    case CaReply(found, ip, port, _, dst, id, _, at, ref) =>
      var meet: CaOp, answer: CaOp := Meet((ip, port), at), Answer((dst, id), (ip, port), found, at, ref, true);
      RunTwo(b, meet, answer);
      MetLists(b.servers, (ip, port), at, server, pv);
      MetKeepsServers(b.servers, (ip, port), at);
      MetLists(b.servers, (ip, port), at, (ip, port), []);
      AnswerLists(Do(b, meet), answer, server, pv);
    case CaBeacon(ip, port, _, at, _) =>
      var meet: CaOp := Meet((ip, port), at);
      RunTwo(b, meet, Op.Beacon((ip, port)));
      MetLists(b.servers, (ip, port), at, server, pv);
      BeaconLists(Do(b, meet), (ip, port), server, pv);
    case CaOther(_, _) =>
  }

  lemma {:induction false} CaRunLast(b: CaBook, ms: seq<CaMessage>, m: CaMessage)
    ensures CaRun(b, ms + [m]) == Run(CaRun(b, ms), CaOps(m))
    decreases |ms|
  {
    if ms == [] {
      assert [m][1..] == [];
    } else {
      assert (ms + [m])[1..] == ms[1..] + [m];
      CaRunLast(Run(b, CaOps(ms[0])), ms[1..], m);
    }
  }

  /** The table after the first n messages. */
  function CaAfter(ms: seq<CaMessage>, n: nat): CaBook
    requires n <= |ms|
  {
    CaRun(Empty(), ms[..n])
  }

  lemma CaAfterSane(ms: seq<CaMessage>, n: nat)
    requires n <= |ms|
    ensures Sane(CaAfter(ms, n))
  {
    CaTablesTidy(ms[..n]);
  }

  lemma CaAfterNext(ms: seq<CaMessage>, n: nat)
    requires n < |ms|
    ensures CaAfter(ms, n + 1) == Run(CaAfter(ms, n), CaOps(ms[n]))
  {
    CaRunLast(Empty(), ms[..n], ms[n]);
    assert ms[..n + 1] == ms[..n] + [ms[n]];
  }

  /** The responses that the messages from i up to n bring to a client's search. */
  function CaReplies(ms: seq<CaMessage>, i: nat, n: nat, client: Addr, id: u32, found: bool): seq<Response<CaServer>>
    requires i <= n <= |ms|
    decreases n
  {
    if i == n then []
    else
      var m := ms[n - 1];
      CaReplies(ms, i, n - 1, client, id, found)
      + if CaAnswersKey(m, client, id) && m.found == found then [Response((m.server, m.port), m.at, m.ref)] else []
  }

  /** The search began with message i, and holds exactly the replies to it between then and message n. */
  predicate CaBegan(ms: seq<CaMessage>, i: nat, n: nat, s: Search<CaKey, CaServer>, client: Addr, id: u32)
    requires n <= |ms|
  {
    && i < n && ms[i].CaSearch? && ms[i].src == client && ms[i].id == id && ms[i].pv == s.pv != [] && ms[i].at == s.firstSeen
    && s.responses == CaReplies(ms, i + 1, n, client, id, true)
    && s.notFound == CaReplies(ms, i + 1, n, client, id, false)
  }

  /** One of the first n messages began the search. */
  predicate CaTraced(ms: seq<CaMessage>, n: nat, s: Search<CaKey, CaServer>, client: Addr, id: u32)
    requires n <= |ms|
  {
    exists i :: 0 <= i < n && CaBegan(ms, i, n, s, client, id)
  }

  lemma CaBeganStays(ms: seq<CaMessage>, i: nat, n: nat, s: Search<CaKey, CaServer>, client: Addr, id: u32, next: Search<CaKey, CaServer>)
    requires n < |ms| && CaBegan(ms, i, n, s, client, id)
    requires next.pv == s.pv && next.firstSeen == s.firstSeen
    requires if CaAnswersKey(ms[n], client, id) then Heard(Some(s), ms[n].found, Response((ms[n].server, ms[n].port), ms[n].at, ms[n].ref)) == Some(next)
             else next.responses == s.responses && next.notFound == s.notFound
    ensures CaBegan(ms, i, n + 1, next, client, id)
  {
  }

  lemma CaTracedNext(ms: seq<CaMessage>, n: nat, client: Addr, id: u32)
    requires n < |ms|
    ensures var s, next := SearchAt(CaAfter(ms, n).searches, (client, id)), SearchAt(CaAfter(ms, n + 1).searches, (client, id));
            (s.Some? ==> CaTraced(ms, n, s.value, client, id)) && next.Some? ==> CaTraced(ms, n + 1, next.value, client, id)
  {
    CaAfterSane(ms, n);
    CaAfterNext(ms, n);
    CaStepSearch(CaAfter(ms, n), ms[n], client, id);
    var s, next := SearchAt(CaAfter(ms, n).searches, (client, id)), SearchAt(CaAfter(ms, n + 1).searches, (client, id));
    if (s.Some? ==> CaTraced(ms, n, s.value, client, id)) && next.Some? {
      if s.Some? {
        var i :| 0 <= i < n && CaBegan(ms, i, n, s.value, client, id);
        CaBeganStays(ms, i, n, s.value, client, id, next.value);
      } else {
        assert CaBegan(ms, n, n + 1, next.value, client, id);
      }
    }
  }

  /**
    Every live search is its history: one of the messages began it, and its responses are exactly the
    found replies since then that were sent to the client with the search's id, in order; its notFound
    exactly the others.
   */
  lemma {:induction false} CaSearchIsItsHistory(ms: seq<CaMessage>, n: nat, client: Addr, id: u32)
    requires n <= |ms|
    ensures var s := SearchAt(CaAfter(ms, n).searches, (client, id));
            s.Some? ==> CaTraced(ms, n, s.value, client, id)
    decreases n
  {
    if n == 0 {
    } else {
      CaSearchIsItsHistory(ms, n - 1, client, id);
      CaTracedNext(ms, n - 1, client, id);
    }
  }

  /** One of the first n messages was a found reply of the server to the live search for the name. */
  predicate CaFoundBefore(ms: seq<CaMessage>, n: nat, server: CaServer, pv: Name)
    requires n <= |ms|
  {
    exists i :: 0 <= i < n && CaFinds(CaAfter(ms, i), ms[i], server, pv)
  }

  lemma CaFoundNext(ms: seq<CaMessage>, n: nat, server: CaServer, pv: Name)
    requires n < |ms|
    ensures CaFoundBefore(ms, n + 1, server, pv) <==> CaFoundBefore(ms, n, server, pv) || CaFinds(CaAfter(ms, n), ms[n], server, pv)
  {
  }

  lemma CaNamesNext(ms: seq<CaMessage>, n: nat, server: CaServer, pv: Name)
    requires n < |ms|
    ensures Lists(CaAfter(ms, n + 1).servers, server, pv) <==>
              Lists(CaAfter(ms, n).servers, server, pv) || CaFinds(CaAfter(ms, n), ms[n], server, pv)
  {
    CaAfterSane(ms, n);
    CaAfterNext(ms, n);
    CaStepNames(CaAfter(ms, n), ms[n], server, pv);
  }

  /** A server lists exactly the names of the live searches that its found replies answered. */
  lemma {:induction false} CaNamesAreAnswered(ms: seq<CaMessage>, n: nat, server: CaServer, pv: Name)
    requires n <= |ms|
    ensures Lists(CaAfter(ms, n).servers, server, pv) <==> CaFoundBefore(ms, n, server, pv)
    decreases n
  {
    if n == 0 {
    } else {
      CaNamesAreAnswered(ms, n - 1, server, pv);
      CaNamesNext(ms, n - 1, server, pv);
      CaFoundNext(ms, n - 1, server, pv);
    }
  }

  /** A found reply to the client of a live search reaches it: it gains the response, its server the name, and no other search changes. */
  lemma CaReplyReachesSearch(b: CaBook, m: CaMessage, client: Addr, id: u32)
    requires Sane(b) && CaAnswersKey(m, client, id) && m.found && SearchAt(b.searches, (client, id)).Some?
    ensures var s := SearchAt(b.searches, (client, id)).value;
            var next := Run(b, CaOps(m));
            && SearchAt(next.searches, (client, id)) ==
                 Some(s.(responses := s.responses + [Response((m.server, m.port), m.at, m.ref)]))
            && Lists(next.servers, (m.server, m.port), s.pv)
            && forall other, i: u32 :: (other, i) != (client, id) ==> SearchAt(next.searches, (other, i)) == SearchAt(b.searches, (other, i))
  {
    CaStepSearch(b, m, client, id);
    CaStepNames(b, m, (m.server, m.port), SearchAt(b.searches, (client, id)).value.pv);
    forall other, i: u32 | (other, i) != (client, id)
      ensures SearchAt(Run(b, CaOps(m)).searches, (other, i)) == SearchAt(b.searches, (other, i))
    {
      CaStepSearch(b, m, other, i);
    }
  }

  // ---------------------------------------------------------------- PVAccess

  function Times<S>(r: Response<S>, k: nat): seq<Response<S>> {
    if k == 0 then [] else Times(r, k - 1) + [r]
  }

  /** A reply that names a search k times is added to it k times. */
  function HeardTimes<K, S>(s: Option<Search<K, S>>, found: bool, r: Response<S>, k: nat): Option<Search<K, S>> {
    match s
    case None => None
    case Some(s) =>
      Some(if found then s.(responses := s.responses + Times(r, k)) else s.(notFound := s.notFound + Times(r, k)))
  }

  lemma HeardOnceMore<K, S>(s: Option<Search<K, S>>, found: bool, r: Response<S>, k: nat)
    ensures HeardTimes(s, found, r, k + 1) == Heard(HeardTimes(s, found, r, k), found, r)
    ensures HeardTimes(s, found, r, 0) == s
  {
    if s.Some? {
      assert s.value.responses + Times(r, k + 1) == s.value.responses + Times(r, k) + [r];
      assert s.value.notFound + Times(r, k + 1) == s.value.notFound + Times(r, k) + [r];
      assert s.value.responses + [] == s.value.responses && s.value.notFound + [] == s.value.notFound;
    }
  }

  /** How often an id is in a list. */
  function Occurs(ids: seq<i32>, id: i32): nat {
    if ids == [] then 0 else Occurs(ids[..|ids| - 1], id) + if ids[|ids| - 1] == id then 1 else 0
  }

  /** How often a reply names the search of a key. */
  function NamesKey(m: PvaMessage, ids: seq<i32>, key: PvaKey): nat
    requires m.PvaReply?
  {
    if m.dst == key.0 && m.sequence == key.1 then Occurs(ids, key.2) else 0
  }

  /** Sane, and the sender of the reply is known. */
  predicate Ready(b: PvaBook, m: PvaMessage)
    requires m.PvaReply?
  {
    Sane(b) && ServerPlace(b.servers, m.guid) < |b.servers|
  }

  lemma AnswerKeepsReady(b: PvaBook, m: PvaMessage, op: PvaOp)
    requires m.PvaReply? && Ready(b, m) && op.Answer?
    ensures Ready(Do(b, op), m)
  {
    StepKeepsFifo(b, op);
    StepServers(b, op);
    SamePlace(b.servers, Do(b, op).servers, m.guid);
  }

  lemma AnswerMore(b: PvaBook, m: PvaMessage, ids: seq<i32>)
    requires m.PvaReply? && ids != []
    ensures var n := |ids| - 1;
            Run(b, AnswerAll(m, ids)) ==
              Do(Run(b, AnswerAll(m, ids[..n])), Answer((m.dst, m.sequence, ids[n]), m.guid, m.found, m.at, m.ref, false))
  {
    var n := |ids| - 1;
    var op: PvaOp := Answer((m.dst, m.sequence, ids[n]), m.guid, m.found, m.at, m.ref, false);
    RunConcat(b, AnswerAll(m, ids[..n]), [op]);
    RunOne(Run(b, AnswerAll(m, ids[..n])), op);
  }

  lemma {:induction false} AnswersKeepReady(b: PvaBook, m: PvaMessage, ids: seq<i32>)
    requires m.PvaReply? && Ready(b, m)
    ensures Ready(Run(b, AnswerAll(m, ids)), m)
    decreases |ids|
  {
    if ids == [] {
    } else {
      var n := |ids| - 1;
      AnswersKeepReady(b, m, ids[..n]);
      AnswerMore(b, m, ids);
      AnswerKeepsReady(Run(b, AnswerAll(m, ids[..n])), m, Answer((m.dst, m.sequence, ids[n]), m.guid, m.found, m.at, m.ref, false));
    }
  }

  lemma AnswerMoreAt(b: PvaBook, m: PvaMessage, ids: seq<i32>, key: PvaKey)
    requires m.PvaReply? && ids != [] && Ready(Run(b, AnswerAll(m, ids[..|ids| - 1])), m)
    ensures var prior := SearchAt(Run(b, AnswerAll(m, ids[..|ids| - 1])).searches, key);
            SearchAt(Run(b, AnswerAll(m, ids)).searches, key) ==
              if key == (m.dst, m.sequence, ids[|ids| - 1]) then Heard(prior, m.found, Response(m.guid, m.at, m.ref)) else prior
  {
    var n := |ids| - 1;
    AnswerMore(b, m, ids);
    AnsweredAt(Run(b, AnswerAll(m, ids[..n])), Answer((m.dst, m.sequence, ids[n]), m.guid, m.found, m.at, m.ref, false), key);
  }

  /** A search once the first ids of a reply have been answered. */
  function HeardIds(s: Option<Search<PvaKey, Guid>>, m: PvaMessage, ids: seq<i32>, key: PvaKey): Option<Search<PvaKey, Guid>>
    requires m.PvaReply?
  {
    HeardTimes(s, m.found, Response(m.guid, m.at, m.ref), NamesKey(m, ids, key))
  }

  lemma HeardOneIdMore(s: Option<Search<PvaKey, Guid>>, m: PvaMessage, ids: seq<i32>, key: PvaKey)
    requires m.PvaReply?
    ensures ids == [] ==> HeardIds(s, m, ids, key) == s
    ensures ids != [] ==> var prior := HeardIds(s, m, ids[..|ids| - 1], key);
                          HeardIds(s, m, ids, key) ==
                            if key == (m.dst, m.sequence, ids[|ids| - 1]) then Heard(prior, m.found, Response(m.guid, m.at, m.ref)) else prior
  {
    var heard := Response(m.guid, m.at, m.ref);
    if ids == [] {
      HeardOnceMore(s, m.found, heard, 0);
    } else {
      HeardOnceMore(s, m.found, heard, NamesKey(m, ids[..|ids| - 1], key));
    }
  }

  lemma {:induction false} AnswersAt(b: PvaBook, m: PvaMessage, ids: seq<i32>, key: PvaKey)
    requires m.PvaReply? && Ready(b, m)
    ensures SearchAt(Run(b, AnswerAll(m, ids)).searches, key) == HeardIds(SearchAt(b.searches, key), m, ids, key)
    decreases |ids|
  {
    HeardOneIdMore(SearchAt(b.searches, key), m, ids, key);
    if ids == [] {
    } else {
      AnswersAt(b, m, ids[..|ids| - 1], key);
      AnswersKeepReady(b, m, ids[..|ids| - 1]);
      AnswerMoreAt(b, m, ids, key);
    }
  }

  /** There is a live search for the name under the key. */
  predicate Seeking(b: PvaBook, key: PvaKey, pv: Name) {
    SearchAt(b.searches, key).Some? && SearchAt(b.searches, key).value.pv == pv
  }

  predicate AnySeeking(b: PvaBook, m: PvaMessage, ids: seq<i32>, pv: Name)
    requires m.PvaReply?
  {
    exists k :: 0 <= k < |ids| && Seeking(b, (m.dst, m.sequence, ids[k]), pv)
  }

  lemma AnySeekingMore(b: PvaBook, m: PvaMessage, ids: seq<i32>, pv: Name)
    requires m.PvaReply? && ids != []
    ensures var n := |ids| - 1;
            AnySeeking(b, m, ids, pv) <==> AnySeeking(b, m, ids[..n], pv) || Seeking(b, (m.dst, m.sequence, ids[n]), pv)
  {
    var n := |ids| - 1;
    assert forall k :: 0 <= k < n ==> ids[..n][k] == ids[k];
  }

  lemma {:induction false} AnswersList(b: PvaBook, m: PvaMessage, ids: seq<i32>, server: Guid, pv: Name)
    requires m.PvaReply? && Ready(b, m)
    ensures Lists(Run(b, AnswerAll(m, ids)).servers, server, pv) <==>
              Lists(b.servers, server, pv) || (m.found && server == m.guid && AnySeeking(b, m, ids, pv))
    decreases |ids|
  {
    if ids == [] {
    } else {
      var n := |ids| - 1;
      var key := (m.dst, m.sequence, ids[n]);
      AnswersList(b, m, ids[..n], server, pv);
      AnswersAt(b, m, ids[..n], key);
      AnswersKeepReady(b, m, ids[..n]);
      AnswerMore(b, m, ids);
      AnswerLists(Run(b, AnswerAll(m, ids[..n])), Answer(key, m.guid, m.found, m.at, m.ref, false), server, pv);
      AnySeekingMore(b, m, ids, pv);
    }
  }

  lemma MeetsReady(b: PvaBook, m: PvaMessage)
    requires m.PvaReply? && Sane(b)
    ensures var met := Do(b, Meet(m.guid, m.at));
            Ready(met, m) && met.searches == b.searches && Run(b, PvaOps(m)) == Run(met, AnswerAll(m, m.ids))
  {
    var meet: PvaOp := Meet(m.guid, m.at);
    RunOne(b, meet);
    RunConcat(b, [meet], AnswerAll(m, m.ids));
    MetKeepsServers(b.servers, m.guid, m.at);
    StepKeepsFifo(b, meet);
  }

  /**
    What a reply does: a live search gains the response once for each time the reply, sent to its client
    with its sequence, lists its id, among the responses or, if not found, in notFound.
   */
  lemma PvaReplyReaches(b: PvaBook, m: PvaMessage, key: PvaKey)
    requires m.PvaReply? && Sane(b)
    ensures SearchAt(Run(b, PvaOps(m)).searches, key) ==
              HeardTimes(SearchAt(b.searches, key), m.found, Response(m.guid, m.at, m.ref), NamesKey(m, m.ids, key))
  {
    MeetsReady(b, m);
    AnswersAt(Do(b, Meet(m.guid, m.at)), m, m.ids, key);
  }

  /** The live search of a key after the first channels of a search. */
  function ChannelsAt(b: PvaBook, m: PvaMessage, i: nat, key: PvaKey): Option<Search<PvaKey, Guid>>
    requires m.PvaSearch? && i <= |m.channels|
  {
    SearchAt(Run(b, Seeks(m.src, m.sequence, m.channels[..i], m.at)).searches, key)
  }

  /** The channels of a search, one after the other: each with a name is counted or begins a search of the client, sequence and id. */
  lemma PvaChannelSought(b: PvaBook, m: PvaMessage, i: nat, key: PvaKey)
    requires m.PvaSearch? && i < |m.channels| && Sane(b)
    ensures var c, own := m.channels[i], (m.src, m.sequence, m.channels[i].id);
            var prior := Run(b, Seeks(m.src, m.sequence, m.channels[..i], m.at));
            ChannelsAt(b, m, i + 1, key) ==
              if c.name == [] then ChannelsAt(b, m, i, key)
              else if key == own then Some(SeenAgain(ChannelsAt(b, m, i, key), key, c.name, m.at))
              else if Drops(prior, own, key) then None
              else ChannelsAt(b, m, i, key)
  {
    SeekStep(b, m, i);
    RunKeepsFifo(b, Seeks(m.src, m.sequence, m.channels[..i], m.at));
    SoughtAt(Run(b, Seeks(m.src, m.sequence, m.channels[..i], m.at)), (m.src, m.sequence, m.channels[i].id), m.channels[i].name, m.at, key);
  }

  /** The search goes on as it was, but for its count and last sighting. */
  predicate GoesOn(s: Option<Search<PvaKey, Guid>>, next: Search<PvaKey, Guid>) {
    && s.Some? && next.pv == s.value.pv && next.firstSeen == s.value.firstSeen
    && next.responses == s.value.responses && next.notFound == s.value.notFound
  }

  /** The message asks for the name with the key's client, sequence and id. */
  predicate Asks(m: PvaMessage, key: PvaKey, pv: Name) {
    m.PvaSearch? && m.src == key.0 && m.sequence == key.1 && exists k :: 0 <= k < |m.channels| && m.channels[k] == Channel(key.2, pv)
  }

  predicate Begins(m: PvaMessage, key: PvaKey, next: Search<PvaKey, Guid>) {
    Asks(m, key, next.pv) && next.pv != [] && next.firstSeen == m.at && next.responses == [] == next.notFound
  }

  /** A search that is live goes on or was begun by the message. */
  predicate Follows(m: PvaMessage, key: PvaKey, s: Option<Search<PvaKey, Guid>>, next: Option<Search<PvaKey, Guid>>) {
    next.Some? ==> GoesOn(s, next.value) || Begins(m, key, next.value)
  }

  lemma FollowsOn(m: PvaMessage, key: PvaKey, s: Option<Search<PvaKey, Guid>>, prior: Option<Search<PvaKey, Guid>>,
                  next: Option<Search<PvaKey, Guid>>)
    requires Follows(m, key, s, prior) && Follows(m, key, prior, next)
    ensures Follows(m, key, s, next)
  {
  }

  lemma PvaChannelKeeps(b: PvaBook, m: PvaMessage, i: nat, key: PvaKey)
    requires m.PvaSearch? && i < |m.channels| && Sane(b)
    ensures Follows(m, key, ChannelsAt(b, m, i, key), ChannelsAt(b, m, i + 1, key))
  {
    PvaChannelSought(b, m, i, key);
    assert m.channels[i] == Channel(m.channels[i].id, m.channels[i].name);
  }

  lemma {:induction false} PvaSoughtKeeps(b: PvaBook, m: PvaMessage, i: nat, key: PvaKey)
    requires m.PvaSearch? && i <= |m.channels| && Sane(b)
    ensures Follows(m, key, SearchAt(b.searches, key), ChannelsAt(b, m, i, key))
    decreases i
  {
    if i == 0 {
      assert m.channels[..0] == [];
    } else {
      PvaSoughtKeeps(b, m, i - 1, key);
      PvaChannelKeeps(b, m, i - 1, key);
      FollowsOn(m, key, SearchAt(b.searches, key), ChannelsAt(b, m, i - 1, key), ChannelsAt(b, m, i, key));
    }
  }

  lemma {:induction false} SeeksKeepServers(b: PvaBook, src: Addr, sequence: i32, channels: seq<Channel>, at: int)
    ensures Run(b, Seeks(src, sequence, channels, at)).servers == b.servers
    decreases |channels|
  {
    if channels == [] {
    } else {
      var n := |channels| - 1;
      SeeksKeepServers(b, src, sequence, channels[..n], at);
      var op: PvaOp := Seek((src, sequence, channels[n].id), channels[n].name, at);
      RunConcat(b, Seeks(src, sequence, channels[..n], at), [op]);
      RunOne(Run(b, Seeks(src, sequence, channels[..n], at)), op);
    }
  }

  /** The message is a found reply of the server that lists the id of a live search of its addressee for the name. */
  predicate PvaFinds(b: PvaBook, m: PvaMessage, server: Guid, pv: Name) {
    m.PvaReply? && m.found && m.guid == server && AnySeeking(b, m, m.ids, pv)
  }

  lemma PvaReplyNames(b: PvaBook, m: PvaMessage, server: Guid, pv: Name)
    requires Sane(b) && m.PvaReply?
    ensures Lists(Run(b, PvaOps(m)).servers, server, pv) <==> Lists(b.servers, server, pv) || PvaFinds(b, m, server, pv)
  {
    var met := Do(b, Meet(m.guid, m.at));
    MeetsReady(b, m);
    AnswersList(met, m, m.ids, server, pv);
    MetLists(b.servers, m.guid, m.at, server, pv);
    assert forall k :: 0 <= k < |m.ids| ==>
        Seeking(met, (m.dst, m.sequence, m.ids[k]), pv) == Seeking(b, (m.dst, m.sequence, m.ids[k]), pv);
  }

  lemma PvaStepNames(b: PvaBook, m: PvaMessage, server: Guid, pv: Name)
    requires Sane(b)
    ensures Lists(Run(b, PvaOps(m)).servers, server, pv) <==> Lists(b.servers, server, pv) || PvaFinds(b, m, server, pv)
  {
    match m
    case PvaSearch(src, sequence, channels, at, _) => SeeksKeepServers(b, src, sequence, channels, at);
    case PvaReply(_, _, _, _, _, _, _, _, _) => PvaReplyNames(b, m, server, pv);
    case PvaBeacon(guid, _, at, _) =>
      var meet: PvaOp := Meet(guid, at);
      RunTwo(b, meet, Op.Beacon(guid));
      MetLists(b.servers, guid, at, server, pv);
      BeaconLists(Do(b, meet), guid, server, pv);
    case PvaOther(_, _) =>
  }

  /** What a message does to the live search of a key. */
  lemma PvaStepSearch(b: PvaBook, m: PvaMessage, key: PvaKey)
    requires Sane(b)
    ensures var s, next := SearchAt(b.searches, key), SearchAt(Run(b, PvaOps(m)).searches, key);
            && (m.PvaReply? ==> next == HeardTimes(s, m.found, Response(m.guid, m.at, m.ref), NamesKey(m, m.ids, key)))
            && (m.PvaSearch? ==> Follows(m, key, s, next))
            && (m.PvaBeacon? || m.PvaOther? ==> next == s)
  {
    match m
    case PvaSearch(_, _, channels, _, _) =>
      PvaSoughtKeeps(b, m, |channels|, key);
      assert channels[..|channels|] == channels;
    case PvaReply(_, _, _, _, _, _, _, _, _) => PvaReplyReaches(b, m, key);
    case PvaBeacon(guid, _, at, _) => RunTwo(b, Meet(guid, at), Op.Beacon(guid));
    case PvaOther(_, _) =>
  }

  lemma {:induction false} PvaRunLast(b: PvaBook, ms: seq<PvaMessage>, m: PvaMessage)
    ensures PvaRun(b, ms + [m]) == Run(PvaRun(b, ms), PvaOps(m))
    decreases |ms|
  {
    if ms == [] {
      assert [m][1..] == [];
    } else {
      assert (ms + [m])[1..] == ms[1..] + [m];
      PvaRunLast(Run(b, PvaOps(ms[0])), ms[1..], m);
    }
  }

  function PvaAfter(ms: seq<PvaMessage>, n: nat): PvaBook
    requires n <= |ms|
  {
    PvaRun(Empty(), ms[..n])
  }

  lemma PvaAfterSane(ms: seq<PvaMessage>, n: nat)
    requires n <= |ms|
    ensures Sane(PvaAfter(ms, n))
  {
    PvaTablesTidy(ms[..n]);
  }

  lemma PvaAfterNext(ms: seq<PvaMessage>, n: nat)
    requires n < |ms|
    ensures PvaAfter(ms, n + 1) == Run(PvaAfter(ms, n), PvaOps(ms[n]))
  {
    PvaRunLast(Empty(), ms[..n], ms[n]);
    assert ms[..n + 1] == ms[..n] + [ms[n]];
  }

  /** The responses a message brings to the search of a key. */
  function PvaBrings(m: PvaMessage, key: PvaKey, found: bool): seq<Response<Guid>> {
    if m.PvaReply? && m.found == found then Times(Response(m.guid, m.at, m.ref), NamesKey(m, m.ids, key)) else []
  }

  function PvaReplies(ms: seq<PvaMessage>, i: nat, n: nat, key: PvaKey, found: bool): seq<Response<Guid>>
    requires i <= n <= |ms|
    decreases n
  {
    if i == n then [] else PvaReplies(ms, i, n - 1, key, found) + PvaBrings(ms[n - 1], key, found)
  }

  /** The search began with message i, and holds exactly the replies to it between then and message n. */
  predicate PvaBegan(ms: seq<PvaMessage>, i: nat, n: nat, s: Search<PvaKey, Guid>, key: PvaKey)
    requires n <= |ms|
  {
    && i < n && Asks(ms[i], key, s.pv) && s.pv != [] && s.firstSeen == ms[i].at
    && s.responses == PvaReplies(ms, i + 1, n, key, true)
    && s.notFound == PvaReplies(ms, i + 1, n, key, false)
  }

  lemma PvaBeganStays(ms: seq<PvaMessage>, i: nat, n: nat, s: Search<PvaKey, Guid>, key: PvaKey, next: Search<PvaKey, Guid>)
    requires n < |ms| && PvaBegan(ms, i, n, s, key)
    requires if ms[n].PvaReply?
             then Some(next) == HeardTimes(Some(s), ms[n].found, Response(ms[n].guid, ms[n].at, ms[n].ref), NamesKey(ms[n], ms[n].ids, key))
             else GoesOn(Some(s), next)
    ensures PvaBegan(ms, i, n + 1, next, key)
  {
  }

  /** One of the first n messages began the search. */
  predicate PvaTraced(ms: seq<PvaMessage>, n: nat, s: Search<PvaKey, Guid>, key: PvaKey)
    requires n <= |ms|
  {
    exists i :: 0 <= i < n && PvaBegan(ms, i, n, s, key)
  }

  lemma PvaTracedOn(ms: seq<PvaMessage>, n: nat, key: PvaKey, s: Option<Search<PvaKey, Guid>>, next: Search<PvaKey, Guid>)
    requires n < |ms| && (s.Some? ==> PvaTraced(ms, n, s.value, key))
    requires if ms[n].PvaReply?
             then Some(next) == HeardTimes(s, ms[n].found, Response(ms[n].guid, ms[n].at, ms[n].ref), NamesKey(ms[n], ms[n].ids, key))
             else GoesOn(s, next) || Begins(ms[n], key, next)
    ensures PvaTraced(ms, n + 1, next, key)
  {
    if Begins(ms[n], key, next) {
      assert PvaBegan(ms, n, n + 1, next, key);
    } else {
      var i :| 0 <= i < n && PvaBegan(ms, i, n, s.value, key);
      PvaBeganStays(ms, i, n, s.value, key, next);
    }
  }

  lemma PvaTracedNext(ms: seq<PvaMessage>, n: nat, key: PvaKey)
    requires n < |ms|
    ensures var s, next := SearchAt(PvaAfter(ms, n).searches, key), SearchAt(PvaAfter(ms, n + 1).searches, key);
            (s.Some? ==> PvaTraced(ms, n, s.value, key)) && next.Some? ==> PvaTraced(ms, n + 1, next.value, key)
  {
    PvaAfterSane(ms, n);
    PvaAfterNext(ms, n);
    PvaStepSearch(PvaAfter(ms, n), ms[n], key);
    var s, next := SearchAt(PvaAfter(ms, n).searches, key), SearchAt(PvaAfter(ms, n + 1).searches, key);
    if (s.Some? ==> PvaTraced(ms, n, s.value, key)) && next.Some? {
      PvaTracedOn(ms, n, key, s, next.value);
    }
  }

  /**
    Every live search is its history: one of the messages asked for its name with its client, sequence
    and id, and its responses are exactly what found replies to it since then brought, in order; its
    notFound exactly what the others did.
   */
  lemma {:induction false} PvaSearchIsItsHistory(ms: seq<PvaMessage>, n: nat, key: PvaKey)
    requires n <= |ms|
    ensures var s := SearchAt(PvaAfter(ms, n).searches, key);
            s.Some? ==> PvaTraced(ms, n, s.value, key)
    decreases n
  {
    if n == 0 {
    } else {
      PvaSearchIsItsHistory(ms, n - 1, key);
      PvaTracedNext(ms, n - 1, key);
    }
  }

  predicate PvaFoundBefore(ms: seq<PvaMessage>, n: nat, server: Guid, pv: Name)
    requires n <= |ms|
  {
    exists i :: 0 <= i < n && PvaFinds(PvaAfter(ms, i), ms[i], server, pv)
  }

  lemma PvaFoundNext(ms: seq<PvaMessage>, n: nat, server: Guid, pv: Name)
    requires n < |ms|
    ensures PvaFoundBefore(ms, n + 1, server, pv) <==> PvaFoundBefore(ms, n, server, pv) || PvaFinds(PvaAfter(ms, n), ms[n], server, pv)
  {
  }

  lemma PvaNamesNext(ms: seq<PvaMessage>, n: nat, server: Guid, pv: Name)
    requires n < |ms|
    ensures Lists(PvaAfter(ms, n + 1).servers, server, pv) <==>
              Lists(PvaAfter(ms, n).servers, server, pv) || PvaFinds(PvaAfter(ms, n), ms[n], server, pv)
  {
    PvaAfterSane(ms, n);
    PvaAfterNext(ms, n);
    PvaStepNames(PvaAfter(ms, n), ms[n], server, pv);
  }

  /** A server lists exactly the names of the live searches that its found replies answered. */
  lemma {:induction false} PvaNamesAreAnswered(ms: seq<PvaMessage>, n: nat, server: Guid, pv: Name)
    requires n <= |ms|
    ensures Lists(PvaAfter(ms, n).servers, server, pv) <==> PvaFoundBefore(ms, n, server, pv)
    decreases n
  {
    if n == 0 {
    } else {
      PvaNamesAreAnswered(ms, n - 1, server, pv);
      PvaNamesNext(ms, n - 1, server, pv);
      PvaFoundNext(ms, n - 1, server, pv);
    }
  }

  // ---------------------------------------------------------------- the servers

  function ServerAt<S(==)>(servers: seq<Server<S>>, key: S): Option<Server<S>> {
    var i := ServerPlace(servers, key);
    if i < |servers| then Some(servers[i]) else None
  }

  /** A server after a message from it. */
  function MetOnce<S>(v: Option<Server<S>>, key: S, at: int): Server<S> {
    match v
    case Some(v) => v.(lastSeen := at)
    case None => Server(key, [], 0, 0, at, at)
  }

  lemma ServerUpdatedAt<S>(servers: seq<Server<S>>, i: nat, v: Server<S>, key: S)
    requires i < |servers| && i == ServerPlace(servers, v.key)
    ensures ServerAt(servers[i := v], key) == if key == v.key then Some(v) else ServerAt(servers, key)
  {
    var next := servers[i := v];
    assert forall k :: 0 <= k < |servers| ==> next[k].key == servers[k].key;
    assert ServerPlace(next, key) == ServerPlace(servers, key);
  }

  lemma MetAt<S>(servers: seq<Server<S>>, from: S, at: int, key: S)
    ensures ServerAt(Met(servers, from, at), key) ==
              if key == from then Some(MetOnce(ServerAt(servers, from), from, at)) else ServerAt(servers, key)
  {
    var i := ServerPlace(servers, from);
    if i < |servers| {
      ServerUpdatedAt(servers, i, servers[i].(lastSeen := at), key);
    } else {
      var next := Met(servers, from, at);
      assert forall k :: 0 <= k < |servers| ==> next[k] == servers[k];
      assert next[|servers|].key == from;
    }
  }

  lemma BeaconAt<K, S>(b: Book<K, S>, from: S, key: S)
    requires ServerAt(b.servers, from).Some?
    ensures var v := ServerAt(b.servers, from).value;
            ServerAt(Do(b, Op.Beacon(from)).servers, key) ==
              if key == from then Some(v.(beacons := v.beacons + 1)) else ServerAt(b.servers, key)
  {
    var i := ServerPlace(b.servers, from);
    ServerUpdatedAt(b.servers, i, b.servers[i].(beacons := b.servers[i].beacons + 1), key);
  }

  /** The name of a live search. */
  function NameOf<K, S>(s: Option<Search<K, S>>): Option<Name> {
    if s.Some? then Some(s.value.pv) else None
  }

  /** What an answer does to each server: a found one is credited with the name of the live search, if there is one. */
  lemma AnswerAt<K, S>(b: Book<K, S>, op: Op<K, S>, key: S)
    requires op.Answer? && ServerAt(b.servers, op.server).Some?
    ensures var s, v := SearchAt(b.searches, op.key), ServerAt(b.servers, op.server).value;
            ServerAt(Do(b, op).servers, key) ==
              if key == op.server && op.found && (s.Some? || op.always) then Some(Credited(v, NameOf(s)))
              else ServerAt(b.servers, key)
  {
    var s, j := SearchAt(b.searches, op.key), ServerPlace(b.servers, op.server);
    if op.found && (s.Some? || op.always) {
      ServerUpdatedAt(b.servers, j, Credited(b.servers[j], NameOf(s)), key);
    }
  }

  /** The message comes from the server: a reply or a beacon of its address and port. */
  predicate CaFrom(m: CaMessage, server: CaServer) {
    (m.CaReply? || m.CaBeacon?) && (m.server, m.port) == server
  }

  lemma CaReplyServer(b: CaBook, m: CaMessage, server: CaServer)
    requires m.CaReply?
    ensures var before := ServerAt(b.servers, server);
            var met := MetOnce(before, server, m.at);
            ServerAt(Run(b, CaOps(m)).servers, server) ==
              if (m.server, m.port) != server then before
              else if m.found then Some(Credited(met, NameOf(SearchAt(b.searches, (m.dst, m.id))))) else Some(met)
  {
    var from := (m.server, m.port);
    var meet: CaOp, answer: CaOp := Meet(from, m.at), Answer((m.dst, m.id), from, m.found, m.at, m.ref, true);
    RunTwo(b, meet, answer);
    MetAt(b.servers, from, m.at, server);
    MetAt(b.servers, from, m.at, from);
    AnswerAt(Do(b, meet), answer, server);
  }

  lemma CaBeaconServer(b: CaBook, m: CaMessage, server: CaServer)
    requires m.CaBeacon?
    ensures var before := ServerAt(b.servers, server);
            var met := MetOnce(before, server, m.at);
            ServerAt(Run(b, CaOps(m)).servers, server) ==
              if (m.server, m.port) != server then before else Some(met.(beacons := met.beacons + 1))
  {
    var from := (m.server, m.port);
    var meet: CaOp := Meet(from, m.at);
    RunTwo(b, meet, Op.Beacon(from));
    MetAt(b.servers, from, m.at, server);
    MetAt(b.servers, from, m.at, from);
    BeaconAt(Do(b, meet), from, server);
  }

  /** What a message makes of the record of a server. */
  lemma CaStepServer(b: CaBook, m: CaMessage, server: CaServer)
    ensures var before, after := ServerAt(b.servers, server), ServerAt(Run(b, CaOps(m)).servers, server);
            if !CaFrom(m, server) then after == before
            else
              var met := MetOnce(before, server, m.at);
              if m.CaBeacon? then after == Some(met.(beacons := met.beacons + 1))
              else if m.found then after == Some(Credited(met, NameOf(SearchAt(b.searches, (m.dst, m.id)))))
              else after == Some(met)
  {
    match m
    case CaSearch(src, id, pv, at, _) => RunOne<CaKey, CaServer>(b, Seek((src, id), pv, at));
    case CaReply(_, _, _, _, _, _, _, _, _) => CaReplyServer(b, m, server);
    case CaBeacon(_, _, _, _, _) => CaBeaconServer(b, m, server);
    case CaOther(_, _) =>
  }

  /** The first n messages that come from a server, and the beacons among them. */
  function CaTimes(ms: seq<CaMessage>, n: nat, server: CaServer): seq<int>
    requires n <= |ms|
  {
    if n == 0 then [] else CaTimes(ms, n - 1, server) + if CaFrom(ms[n - 1], server) then [ms[n - 1].at] else []
  }

  function CaBeacons(ms: seq<CaMessage>, n: nat, server: CaServer): nat
    requires n <= |ms|
  {
    if n == 0 then 0
    else CaBeacons(ms, n - 1, server) + if CaFrom(ms[n - 1], server) && ms[n - 1].CaBeacon? then 1 else 0
  }

  /** A server is on record exactly if it was heard, from the first to the last time, with the number of its beacons. */
  predicate OnRecord<S>(v: Option<Server<S>>, times: seq<int>, beacons: nat) {
    match v
    case None => times == [] && beacons == 0
    case Some(v) => times != [] && v.firstSeen == times[0] && v.lastSeen == times[|times| - 1] && v.beacons == beacons
  }

  lemma OnRecordNext<S>(v: Option<Server<S>>, next: Server<S>, times: seq<int>, beacons: nat, key: S, at: int, more: nat)
    requires OnRecord(v, times, beacons)
    requires var met := MetOnce(v, key, at);
             next.firstSeen == met.firstSeen && next.lastSeen == met.lastSeen && next.beacons == met.beacons + more
    ensures OnRecord(Some(next), times + [at], beacons + more)
  {
  }

  lemma CaServerNext(ms: seq<CaMessage>, n: nat, server: CaServer)
    requires n < |ms| && OnRecord(ServerAt(CaAfter(ms, n).servers, server), CaTimes(ms, n, server), CaBeacons(ms, n, server))
    ensures OnRecord(ServerAt(CaAfter(ms, n + 1).servers, server), CaTimes(ms, n + 1, server), CaBeacons(ms, n + 1, server))
  {
    var m := ms[n];
    CaAfterNext(ms, n);
    CaStepServer(CaAfter(ms, n), m, server);
    if CaFrom(m, server) {
      OnRecordNext(ServerAt(CaAfter(ms, n).servers, server), ServerAt(CaAfter(ms, n + 1).servers, server).value,
                   CaTimes(ms, n, server), CaBeacons(ms, n, server), server, m.at, if m.CaBeacon? then 1 else 0);
    } else {
      assert CaTimes(ms, n, server) + [] == CaTimes(ms, n, server);
    }
  }

  /** A server is on record exactly if it sent a reply or beacon, from the first to the last of them, with the number of its beacons. */
  lemma {:induction false} CaServerIsItsHistory(ms: seq<CaMessage>, n: nat, server: CaServer)
    requires n <= |ms|
    ensures OnRecord(ServerAt(CaAfter(ms, n).servers, server), CaTimes(ms, n, server), CaBeacons(ms, n, server))
    decreases n
  {
    if n == 0 {
    } else {
      CaServerIsItsHistory(ms, n - 1, server);
      CaServerNext(ms, n - 1, server);
    }
  }

  /** The two records tell the same sightings and beacons. */
  predicate SameRecord<S>(v: Option<Server<S>>, w: Option<Server<S>>) {
    && (v.Some? <==> w.Some?)
    && (v.Some? ==> v.value.firstSeen == w.value.firstSeen && v.value.lastSeen == w.value.lastSeen && v.value.beacons == w.value.beacons)
  }

  lemma AnswerKeepsRecord<K, S>(b: Book<K, S>, op: Op<K, S>, key: S)
    requires op.Answer?
    ensures SameRecord(ServerAt(Do(b, op).servers, key), ServerAt(b.servers, key))
  {
    if ServerAt(b.servers, op.server).Some? {
      AnswerAt(b, op, key);
    }
  }

  lemma {:induction false} AnswersKeepRecord(b: PvaBook, m: PvaMessage, ids: seq<i32>, key: Guid)
    requires m.PvaReply?
    ensures SameRecord(ServerAt(Run(b, AnswerAll(m, ids)).servers, key), ServerAt(b.servers, key))
    decreases |ids|
  {
    if ids == [] {
    } else {
      var n := |ids| - 1;
      AnswersKeepRecord(b, m, ids[..n], key);
      AnswerMore(b, m, ids);
      AnswerKeepsRecord(Run(b, AnswerAll(m, ids[..n])), Answer((m.dst, m.sequence, ids[n]), m.guid, m.found, m.at, m.ref, false), key);
    }
  }

  predicate PvaFrom(m: PvaMessage, server: Guid) {
    (m.PvaReply? || m.PvaBeacon?) && m.guid == server
  }

  function PvaTimes(ms: seq<PvaMessage>, n: nat, server: Guid): seq<int>
    requires n <= |ms|
  {
    if n == 0 then [] else PvaTimes(ms, n - 1, server) + if PvaFrom(ms[n - 1], server) then [ms[n - 1].at] else []
  }

  function PvaBeacons(ms: seq<PvaMessage>, n: nat, server: Guid): nat
    requires n <= |ms|
  {
    if n == 0 then 0
    else PvaBeacons(ms, n - 1, server) + if PvaFrom(ms[n - 1], server) && ms[n - 1].PvaBeacon? then 1 else 0
  }

  lemma PvaReplyRecord(b: PvaBook, m: PvaMessage, server: Guid)
    requires m.PvaReply?
    ensures SameRecord(ServerAt(Run(b, PvaOps(m)).servers, server), ServerAt(Met(b.servers, m.guid, m.at), server))
  {
    var meet: PvaOp := Meet(m.guid, m.at);
    RunOne(b, meet);
    RunConcat(b, [meet], AnswerAll(m, m.ids));
    AnswersKeepRecord(Do(b, meet), m, m.ids, server);
  }

  /** What a message makes of the sightings and beacons of a server. */
  lemma PvaStepServer(b: PvaBook, m: PvaMessage, server: Guid)
    ensures var before, after := ServerAt(b.servers, server), ServerAt(Run(b, PvaOps(m)).servers, server);
            if !PvaFrom(m, server) then SameRecord(after, before)
            else
              var met := MetOnce(before, server, m.at);
              SameRecord(after, Some(met.(beacons := met.beacons + if m.PvaBeacon? then 1 else 0)))
  {
    match m
    case PvaSearch(src, sequence, channels, at, _) => SeeksKeepServers(b, src, sequence, channels, at);
    case PvaReply(_, guid, _, _, _, _, _, at, _) =>
      PvaReplyRecord(b, m, server);
      MetAt(b.servers, guid, at, server);
    case PvaBeacon(guid, _, at, _) =>
      var meet: PvaOp := Meet(guid, at);
      RunTwo(b, meet, Op.Beacon(guid));
      MetAt(b.servers, guid, at, server);
      MetAt(b.servers, guid, at, guid);
      BeaconAt(Do(b, meet), guid, server);
    case PvaOther(_, _) =>
  }

  lemma PvaServerNext(ms: seq<PvaMessage>, n: nat, server: Guid)
    requires n < |ms| && OnRecord(ServerAt(PvaAfter(ms, n).servers, server), PvaTimes(ms, n, server), PvaBeacons(ms, n, server))
    ensures OnRecord(ServerAt(PvaAfter(ms, n + 1).servers, server), PvaTimes(ms, n + 1, server), PvaBeacons(ms, n + 1, server))
  {
    var m := ms[n];
    PvaAfterNext(ms, n);
    PvaStepServer(PvaAfter(ms, n), m, server);
    if PvaFrom(m, server) {
      OnRecordNext(ServerAt(PvaAfter(ms, n).servers, server), ServerAt(PvaAfter(ms, n + 1).servers, server).value,
                   PvaTimes(ms, n, server), PvaBeacons(ms, n, server), server, m.at, if m.PvaBeacon? then 1 else 0);
    } else {
      assert PvaTimes(ms, n, server) + [] == PvaTimes(ms, n, server);
    }
  }

  /** The same for PVAccess servers, known by their GUIDs. */
  lemma {:induction false} PvaServerIsItsHistory(ms: seq<PvaMessage>, n: nat, server: Guid)
    requires n <= |ms|
    ensures OnRecord(ServerAt(PvaAfter(ms, n).servers, server), PvaTimes(ms, n, server), PvaBeacons(ms, n, server))
    decreases n
  {
    if n == 0 {
    } else {
      PvaServerIsItsHistory(ms, n - 1, server);
      PvaServerNext(ms, n - 1, server);
    }
  }
}
