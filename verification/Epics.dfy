/**
  Folding Channel Access and PVAccess messages into the search tables and the device table
  (internal/device/epics.go). A Channel Access server is known by its address and port, a PVAccess
  server by its GUID.
 */
module Epics {
  import opened Bytes
  import opened NetIp
  import opened Wrappers
  import opened Searches
  import opened SearchTable
  import Ca
  import Pva
  import PvaBuild
  import PvaMessages
  import opened PvaReader
  import Devices
  import DeviceTable
  import Sightings

  type CaKey = (Addr, u32)
  type CaServer = (Addr, u16)
  type PvaKey = (Addr, i32, i32)
  type Guid = seq<byte>

  type CaOp = Op<CaKey, CaServer>
  type PvaOp = Op<PvaKey, Guid>
  type CaBook = Book<CaKey, CaServer>
  type PvaBook = Book<PvaKey, Guid>

  /** A Channel Access message; found tells a search response from a not-found reply. */
  datatype CaMessage =
    | CaSearch(src: Addr, id: u32, pv: Name, at: int, ref: nat)
    | CaReply(found: bool, server: Addr, port: u16, src: Addr, dst: Addr, id: u32, udp: bool, at: int, ref: nat)
    | CaBeacon(server: Addr, port: u16, src: Addr, at: int, ref: nat)
    | CaOther(at: int, ref: nat)

  datatype PvaMessage =
    | PvaSearch(src: Addr, sequence: i32, channels: seq<Channel>, at: int, ref: nat)
    | PvaReply(found: bool, guid: Guid, src: Addr, dst: Addr, sequence: i32, ids: seq<i32>, udp: bool, at: int, ref: nat)
    | PvaBeacon(guid: Guid, src: Addr, at: int, ref: nat)
    | PvaOther(at: int, ref: nat)

  /** What the tables take from a decoded message. */
  function CaMessageOf(o: Ca.Observation, at: int, ref: nat): CaMessage {
    match Ca.KindOf(o)
    case Search => CaSearch(o.src, o.searchId, o.pvName, at, ref)
    case SearchResponse => CaReply(true, o.serverIp, o.serverPort, o.src, o.dst, o.searchId, o.transport == Ca.Udp, at, ref)
    case NotFound => CaReply(false, o.serverIp, o.serverPort, o.src, o.dst, o.searchId, o.transport == Ca.Udp, at, ref)
    case Beacon => CaBeacon(o.serverIp, o.serverPort, o.src, at, ref)
    case _ => CaOther(at, ref)
  }

  function PvaMessageOf(o: PvaMessages.Observation, at: int, ref: nat): PvaMessage {
    match o.decoded.body
    case SearchBody(sequence, _, _, _, _, _, channels) => PvaSearch(o.src, sequence, channels, at, ref)
    case ResponseBody(guid, sequence, _, _, _, found, ids) =>
      PvaReply(found, guid, o.src, o.dst, sequence, ids, o.transport == PvaMessages.Udp, at, ref)
    case BeaconBody(guid, _, _, _, _, _, _) => PvaBeacon(guid, o.src, at, ref)
    case _ => PvaOther(at, ref)
  }

  // ---------------------------------------------------------------- the steps of a message

  function CaOps(m: CaMessage): seq<CaOp> {
    match m
    case CaSearch(src, id, pv, at, _) => [Seek((src, id), pv, at)]
    case CaReply(found, server, port, _, dst, id, _, at, ref) =>
      [Meet((server, port), at), Answer((dst, id), (server, port), found, at, ref, true)]
    case CaBeacon(server, port, _, at, _) => [Meet((server, port), at), Beacon((server, port))]
    case CaOther(_, _) => []
  }

  function Seeks(src: Addr, sequence: i32, channels: seq<Channel>, at: int): seq<PvaOp> {
    if channels == [] then []
    else
      var n := |channels| - 1;
      Seeks(src, sequence, channels[..n], at) + [Seek((src, sequence, channels[n].id), channels[n].name, at)]
  }

  function AnswerAll(m: PvaMessage, ids: seq<i32>): seq<PvaOp>
    requires m.PvaReply?
    decreases |ids|
  {
    if ids == [] then []
    else
      var n := |ids| - 1;
      AnswerAll(m, ids[..n]) + [Answer((m.dst, m.sequence, ids[n]), m.guid, m.found, m.at, m.ref, false)]
  }

  function PvaOps(m: PvaMessage): seq<PvaOp> {
    match m
    case PvaSearch(src, sequence, channels, at, _) => Seeks(src, sequence, channels, at)
    case PvaReply(_, guid, _, _, _, ids, _, at, _) => [Meet(guid, at)] + AnswerAll(m, ids)
    case PvaBeacon(guid, _, at, _) => [Meet(guid, at), Beacon(guid)]
    case PvaOther(_, _) => []
  }

  /** A reply over UDP and a beacon show the address of the server; every message shows its device. */
  function CaHolding(m: CaMessage): Option<(Addr, Devices.State)> {
    if (m.CaReply? && m.udp) || m.CaBeacon? then Some((m.src, Devices.Observed)) else None
  }

  function PvaHolding(m: PvaMessage): Option<(Addr, Devices.State)> {
    if (m.PvaReply? && m.udp) || m.PvaBeacon? then Some((m.src, Devices.Observed)) else None
  }

  function Shown(frame: Option<Devices.Mac>, held: Option<(Addr, Devices.State)>, at: int, ref: nat): seq<Devices.Op> {
    if Sightings.Keyed(frame) then Sightings.Sighted(frame.value, held, at, ref) else []
  }

  // ---------------------------------------------------------------- runs of messages

  lemma {:induction false} RunConcat<K, S>(b: Book<K, S>, xs: seq<Op<K, S>>, ys: seq<Op<K, S>>)
    ensures Run(b, xs + ys) == Run(Run(b, xs), ys)
    decreases |xs|
  {
    if xs == [] {
      assert xs + ys == ys;
    } else {
      assert (xs + ys)[1..] == xs[1..] + ys;
      RunConcat(Do(b, xs[0]), xs[1..], ys);
    }
  }

  lemma RunOne<K, S>(b: Book<K, S>, op: Op<K, S>)
    ensures Run(b, [op]) == Do(b, op)
  {
    assert [op][1..] == [];
  }

  lemma RunTwo<K, S>(b: Book<K, S>, x: Op<K, S>, y: Op<K, S>)
    ensures Run(b, [x, y]) == Do(Do(b, x), y)
  {
    assert [x, y][1..] == [y];
    RunOne(Do(b, x), y);
  }

  function CaRun(b: CaBook, ms: seq<CaMessage>): CaBook
    decreases |ms|
  {
    if ms == [] then b else CaRun(Run(b, CaOps(ms[0])), ms[1..])
  }

  function PvaRun(b: PvaBook, ms: seq<PvaMessage>): PvaBook
    decreases |ms|
  {
    if ms == [] then b else PvaRun(Run(b, PvaOps(ms[0])), ms[1..])
  }

  /** The search responses that name a server. */
  function RepliesFrom(ms: seq<CaMessage>, server: CaServer): nat
    decreases |ms|
  {
    if ms == [] then 0
    else (if ms[0].CaReply? && ms[0].found && (ms[0].server, ms[0].port) == server then 1 else 0) + RepliesFrom(ms[1..], server)
  }

  /** A message names its server and then, if it is a search response, credits it once. */
  lemma CaReplyCounts(b: CaBook, key: CaKey, from: CaServer, found: bool, at: int, ref: nat, server: CaServer)
    requires ServersInv(b.servers)
    ensures var n := Do(Do(b, Meet(from, at)), Answer(key, from, found, at, ref, true));
            ServersInv(n.servers) && AnswersOf(n.servers, server) == AnswersOf(b.servers, server) + if found && from == server then 1 else 0
  {
    var meet: CaOp, answer: CaOp := Meet(from, at), Answer(key, from, found, at, ref, true);
    StepServers(b, meet);
    MetKeepsServers(b.servers, from, at);
    StepServers(Do(b, meet), answer);
  }

  lemma CaBeaconCounts(b: CaBook, from: CaServer, at: int, server: CaServer)
    requires ServersInv(b.servers)
    ensures var n := Do(Do(b, Meet(from, at)), Op.Beacon(from));
            ServersInv(n.servers) && AnswersOf(n.servers, server) == AnswersOf(b.servers, server)
  {
    var meet: CaOp, beacon: CaOp := Meet(from, at), Op.Beacon(from);
    StepServers(b, meet);
    StepServers(Do(b, meet), beacon);
  }

  lemma CaStepCounts(b: CaBook, m: CaMessage, server: CaServer)
    requires ServersInv(b.servers)
    ensures ServersInv(Run(b, CaOps(m)).servers)
    ensures AnswersOf(Run(b, CaOps(m)).servers, server) ==
              AnswersOf(b.servers, server) + if m.CaReply? && m.found && (m.server, m.port) == server then 1 else 0
  {
    match m
    case CaSearch(src, id, pv, at, _) => RunOne<CaKey, CaServer>(b, Seek((src, id), pv, at));
    case CaReply(found, ip, port, _, dst, id, _, at, ref) =>
      RunTwo(b, Meet((ip, port), at), Answer((dst, id), (ip, port), found, at, ref, true));
      CaReplyCounts(b, (dst, id), (ip, port), found, at, ref, server);
    case CaBeacon(ip, port, _, at, _) =>
      RunTwo(b, Meet((ip, port), at), Op.Beacon((ip, port)));
      CaBeaconCounts(b, (ip, port), at, server);
    case CaOther(_, _) =>
  }

  lemma {:induction false} CaRunCounts(b: CaBook, ms: seq<CaMessage>, server: CaServer)
    requires ServersInv(b.servers)
    ensures AnswersOf(CaRun(b, ms).servers, server) == AnswersOf(b.servers, server) + RepliesFrom(ms, server)
    decreases |ms|
  {
    if ms == [] {
    } else {
      CaStepCounts(b, ms[0], server);
      CaRunCounts(Run(b, CaOps(ms[0])), ms[1..], server);
    }
  }

  /** A Channel Access server's answers are the search responses that named its address and port. */
  lemma CaAnswersAreReplies(ms: seq<CaMessage>, server: CaServer)
    ensures AnswersOf(CaRun(Empty(), ms).servers, server) == RepliesFrom(ms, server)
  {
    CaRunCounts(Empty(), ms, server);
  }

  // ---------------------------------------------------------------- what holds after any messages

  /** All the messages' steps, one after the other. */
  function CaSteps(ms: seq<CaMessage>): seq<CaOp> {
    if ms == [] then [] else CaOps(ms[0]) + CaSteps(ms[1..])
  }

  function PvaSteps(ms: seq<PvaMessage>): seq<PvaOp> {
    if ms == [] then [] else PvaOps(ms[0]) + PvaSteps(ms[1..])
  }

  lemma {:induction false} CaRunIsRun(b: CaBook, ms: seq<CaMessage>)
    ensures CaRun(b, ms) == Run(b, CaSteps(ms))
    decreases |ms|
  {
    if ms == [] {
    } else {
      RunConcat(b, CaOps(ms[0]), CaSteps(ms[1..]));
      CaRunIsRun(Run(b, CaOps(ms[0])), ms[1..]);
    }
  }

  lemma {:induction false} PvaRunIsRun(b: PvaBook, ms: seq<PvaMessage>)
    ensures PvaRun(b, ms) == Run(b, PvaSteps(ms))
    decreases |ms|
  {
    if ms == [] {
    } else {
      RunConcat(b, PvaOps(ms[0]), PvaSteps(ms[1..]));
      PvaRunIsRun(Run(b, PvaOps(ms[0])), ms[1..]);
    }
  }

  lemma {:induction false} PvaOpsCountKnown(m: PvaMessage, ids: seq<i32>)
    requires m.PvaReply?
    ensures NoneAlways(AnswerAll(m, ids))
    decreases |ids|
  {
    if ids == [] {
    } else {
      PvaOpsCountKnown(m, ids[..|ids| - 1]);
    }
  }

  lemma {:induction false} SeeksCountKnown(src: Addr, sequence: i32, channels: seq<Channel>, at: int)
    ensures NoneAlways(Seeks(src, sequence, channels, at))
    decreases |channels|
  {
    if channels == [] {
    } else {
      SeeksCountKnown(src, sequence, channels[..|channels| - 1], at);
    }
  }

  lemma {:induction false} PvaStepsCountKnown(ms: seq<PvaMessage>)
    ensures NoneAlways(PvaSteps(ms))
    decreases |ms|
  {
    if ms == [] {
    } else {
      match ms[0] {
        case PvaSearch(src, sequence, channels, at, _) => SeeksCountKnown(src, sequence, channels, at);
        case PvaReply(_, _, _, _, _, ids, _, _, _) => PvaOpsCountKnown(ms[0], ids);
        case _ =>
      }
      PvaStepsCountKnown(ms[1..]);
    }
  }

  /** The live searches are the last inserted ones, and every response is from a known server that lists the search's name. */
  predicate Tidy<K(==), S(==)>(b: Book<K, S>) {
    Fifo(b) && Listed(b) && ServersInv(b.servers)
  }

  lemma TidyRun<K, S>(ops: seq<Op<K, S>>)
    ensures Tidy(Run(Empty<K, S>(), ops))
  {
    RunKeepsFifo(Empty<K, S>(), ops);
    RunKeepsListed(Empty<K, S>(), ops);
  }

  /** After any Channel Access messages the tables are tidy. */
  lemma CaTablesTidy(ms: seq<CaMessage>)
    ensures Tidy(CaRun(Empty(), ms))
  {
    CaRunIsRun(Empty(), ms);
    TidyRun(CaSteps(ms));
  }

  /** After any PVAccess messages the tables are tidy, and the servers' answers sum to the responses all searches ever held. */
  lemma PvaTablesTidy(ms: seq<PvaMessage>)
    ensures var b := PvaRun(Empty(), ms);
            Tidy(b) && TotalAnswers(b.servers) == TotalResponses(b.searches) + TotalResponses(b.evicted)
  {
    PvaRunIsRun(Empty(), ms);
    TidyRun(PvaSteps(ms));
    PvaStepsCountKnown(ms);
    AnswersAreConserved(PvaSteps(ms));
  }

  // ---------------------------------------------------------------- folding a message in

  /** The sender of a frame is seen, with the address it showed, if any. */
  method Show(t: DeviceTable.Table, frame: Option<Devices.Mac>, held: Option<(Addr, Devices.State)>, at: int, ref: nat)
    returns (events: seq<Devices.Event>)
    requires t.Valid()
    modifies t, t.order, t.claimOrder
    ensures t.Valid()
    ensures t.model == Devices.Run(old(t.model), Shown(frame, held, at, ref))
    ensures events == Devices.Reports(old(t.model), Shown(frame, held, at, ref))
  {
    events := [];
    if Sightings.Keyed(frame) {
      events := Sightings.Sight(t, frame.value, held, at, ref);
    }
  }

  /** The same beside a correlator, which shares no record with the device table. */
  method ShowBeside<K(==), S(==)>(t: DeviceTable.Table, c: Correlator<K, S>, frame: Option<Devices.Mac>,
                                  held: Option<(Addr, Devices.State)>, at: int, ref: nat) returns (events: seq<Devices.Event>)
    requires t.Valid() && c.Valid()
    modifies t, t.order, t.claimOrder
    ensures t.Valid() && c.Valid()
    ensures t.model == Devices.Run(old(t.model), Shown(frame, held, at, ref))
    ensures events == Devices.Reports(old(t.model), Shown(frame, held, at, ref))
  {
    events := Show(t, frame, held, at, ref);
  }

  method ApplyCaBeside(t: DeviceTable.Table, c: Correlator<CaKey, CaServer>, m: CaMessage)
    requires t.Valid() && c.Valid()
    modifies c, c.order, c.serverOrder
    ensures t.Valid() && c.Valid() && c.book == Run(old(c.book), CaOps(m))
  {
    ApplyCa(c, m);
  }

  method ApplyPvaBeside(t: DeviceTable.Table, c: Correlator<PvaKey, Guid>, m: PvaMessage)
    requires t.Valid() && c.Valid()
    modifies c, c.order, c.serverOrder
    ensures t.Valid() && c.Valid() && c.book == Run(old(c.book), PvaOps(m))
  {
    ApplyPva(c, m);
  }

  /** Folds a Channel Access message of a frame into the device table and the search tables. */
  method FoldCa(t: DeviceTable.Table, c: Correlator<CaKey, CaServer>, frame: Option<Devices.Mac>, m: CaMessage)
    returns (events: seq<Devices.Event>)
    requires t.Valid() && c.Valid()
    modifies t, t.order, t.claimOrder, c, c.order, c.serverOrder
    ensures t.Valid() && c.Valid() && c.book == Run(old(c.book), CaOps(m))
    ensures t.model == Devices.Run(old(t.model), Shown(frame, CaHolding(m), m.at, m.ref))
    ensures events == Devices.Reports(old(t.model), Shown(frame, CaHolding(m), m.at, m.ref))
  {
    events := ShowBeside(t, c, frame, CaHolding(m), m.at, m.ref);
    ApplyCaBeside(t, c, m);
  }

  /** Folds a PVAccess message of a frame into the device table and the search tables. */
  method FoldPva(t: DeviceTable.Table, c: Correlator<PvaKey, Guid>, frame: Option<Devices.Mac>, m: PvaMessage)
    returns (events: seq<Devices.Event>)
    requires t.Valid() && c.Valid()
    modifies t, t.order, t.claimOrder, c, c.order, c.serverOrder
    ensures t.Valid() && c.Valid() && c.book == Run(old(c.book), PvaOps(m))
    ensures t.model == Devices.Run(old(t.model), Shown(frame, PvaHolding(m), m.at, m.ref))
    ensures events == Devices.Reports(old(t.model), Shown(frame, PvaHolding(m), m.at, m.ref))
  {
    events := ShowBeside(t, c, frame, PvaHolding(m), m.at, m.ref);
    ApplyPvaBeside(t, c, m);
  }

  /** A sender shown with an address in a strong state holds that address strongly. */
  lemma ShownIsHeld(t: Devices.Model, mac: Devices.Mac, addr: Addr, state: Devices.State, at: int, ref: nat)
    requires Devices.Inv(t) && Sightings.ValidKey(mac) && Devices.Holdable(addr, addr.V6?) && Devices.Strong(state)
    ensures Devices.StronglyHeld(Devices.Run(t, Shown(Some(mac), Some((addr, state)), at, ref)).devices, addr, mac)
  {
    var touch, hold := Devices.Touch(mac, at), Devices.Hold(mac, addr, state, at, ref);
    var u := Devices.Do(t, touch);
    Devices.StepKeepsInv(t, touch);
    assert u.devices[Devices.Find(t.devices, mac)].mac == mac;
    Devices.HoldHeld(u, mac, addr, state, at, ref, addr, mac);
    assert [touch, hold][1..] == [hold];
    Sightings.RunOne(u, hold);
  }

  /** A server is known by the frame of its UDP reply or beacon: the table then has its address as strongly held. */
  lemma ServersAreObserved(t: Devices.Model, mac: Devices.Mac, ca: CaMessage, pva: PvaMessage)
    requires Devices.Inv(t) && Sightings.ValidKey(mac)
    ensures ((ca.CaReply? && ca.udp) || ca.CaBeacon?) && Devices.Holdable(ca.src, ca.src.V6?) ==>
              Devices.StronglyHeld(Devices.Run(t, Shown(Some(mac), CaHolding(ca), ca.at, ca.ref)).devices, ca.src, mac)
    ensures ((pva.PvaReply? && pva.udp) || pva.PvaBeacon?) && Devices.Holdable(pva.src, pva.src.V6?) ==>
              Devices.StronglyHeld(Devices.Run(t, Shown(Some(mac), PvaHolding(pva), pva.at, pva.ref)).devices, pva.src, mac)
  {
    if CaHolding(ca).Some? && Devices.Holdable(ca.src, ca.src.V6?) {
      ShownIsHeld(t, mac, ca.src, Devices.Observed, ca.at, ca.ref);
    }
    if PvaHolding(pva).Some? && Devices.Holdable(pva.src, pva.src.V6?) {
      ShownIsHeld(t, mac, pva.src, Devices.Observed, pva.at, pva.ref);
    }
  }

  method ApplyCa(c: Correlator<CaKey, CaServer>, m: CaMessage)
    requires c.Valid()
    modifies c, c.order, c.serverOrder
    ensures c.Valid() && c.book == Run(old(c.book), CaOps(m))
  {
    ghost var before := c.book;
    match m
    case CaSearch(src, id, pv, at, _) =>
      c.Seek((src, id), pv, at);
      RunOne<CaKey, CaServer>(before, Seek((src, id), pv, at));
    case CaReply(found, server, port, _, dst, id, _, at, ref) =>
      var v := c.Meet((server, port), at);
      c.Answer((dst, id), v, found, at, ref, true);
      RunTwo(before, Meet((server, port), at), Answer((dst, id), (server, port), found, at, ref, true));
    case CaBeacon(server, port, _, at, _) =>
      var v := c.Meet((server, port), at);
      c.Beacon(v);
      RunTwo(before, Meet((server, port), at), Op.Beacon((server, port)));
    case CaOther(_, _) =>
  }

  lemma SeekStep(b: PvaBook, m: PvaMessage, i: nat)
    requires m.PvaSearch? && i < |m.channels|
    ensures Run(b, Seeks(m.src, m.sequence, m.channels[..i + 1], m.at))
         == Do(Run(b, Seeks(m.src, m.sequence, m.channels[..i], m.at)), Seek((m.src, m.sequence, m.channels[i].id), m.channels[i].name, m.at))
  {
    var op: PvaOp := Seek((m.src, m.sequence, m.channels[i].id), m.channels[i].name, m.at);
    var done := Seeks(m.src, m.sequence, m.channels[..i], m.at);
    assert m.channels[..i + 1][..i] == m.channels[..i];
    RunConcat(b, done, [op]);
    RunOne(Run(b, done), op);
  }

  lemma AnswerStep(b: PvaBook, m: PvaMessage, i: nat)
    requires m.PvaReply? && i < |m.ids|
    ensures Run(b, AnswerAll(m, m.ids[..i + 1]))
         == Do(Run(b, AnswerAll(m, m.ids[..i])), Answer((m.dst, m.sequence, m.ids[i]), m.guid, m.found, m.at, m.ref, false))
  {
    var op: PvaOp := Answer((m.dst, m.sequence, m.ids[i]), m.guid, m.found, m.at, m.ref, false);
    var done := AnswerAll(m, m.ids[..i]);
    assert m.ids[..i + 1][..i] == m.ids[..i];
    RunConcat(b, done, [op]);
    RunOne(Run(b, done), op);
  }

  method SeekAll(c: Correlator<PvaKey, Guid>, m: PvaMessage)
    requires c.Valid() && m.PvaSearch?
    modifies c, c.order
    ensures c.Valid() && c.book == Run(old(c.book), PvaOps(m))
  {
    ghost var before := c.book;
    for i := 0 to |m.channels|
      invariant c.Valid() && c.book == Run(before, Seeks(m.src, m.sequence, m.channels[..i], m.at))
      invariant forall x :: x in c.order ==> x in old(c.order) || fresh(x)
    {
      SeekStep(before, m, i);
      c.Seek((m.src, m.sequence, m.channels[i].id), m.channels[i].name, m.at);
    }
    assert m.channels[..|m.channels|] == m.channels;
  }

  method AnswerEach(c: Correlator<PvaKey, Guid>, m: PvaMessage)
    requires c.Valid() && m.PvaReply?
    modifies c, c.order, c.serverOrder
    ensures c.Valid() && c.book == Run(old(c.book), PvaOps(m))
  {
    ghost var before := c.book;
    var v := c.Meet(m.guid, m.at);
    ghost var meet: PvaOp := Meet(m.guid, m.at);
    RunOne(before, meet);
    ghost var met := c.book;
    AnswerLoop(c, v, m);
    RunConcat(before, [meet], AnswerAll(m, m.ids));
  }

  method AnswerLoop(c: Correlator<PvaKey, Guid>, v: ServerRecord<Guid>, m: PvaMessage)
    requires c.Valid() && m.PvaReply? && v.key == m.guid && v.key in c.servers && c.servers[v.key] == v && v in c.serverOrder
    modifies c`book, v, c.order
    ensures c.Valid() && c.book == Run(old(c.book), AnswerAll(m, m.ids))
  {
    ghost var before := c.book;
    for i := 0 to |m.ids|
      invariant c.Valid() && c.book == Run(before, AnswerAll(m, m.ids[..i]))
    {
      AnswerStep(before, m, i);
      c.Answer((m.dst, m.sequence, m.ids[i]), v, m.found, m.at, m.ref, false);
    }
    assert m.ids[..|m.ids|] == m.ids;
  }

  method ApplyPva(c: Correlator<PvaKey, Guid>, m: PvaMessage)
    requires c.Valid()
    modifies c, c.order, c.serverOrder
    ensures c.Valid() && c.book == Run(old(c.book), PvaOps(m))
  {
    if m.PvaSearch? {
      SeekAll(c, m);
    } else if m.PvaReply? {
      AnswerEach(c, m);
    } else if m.PvaBeacon? {
      ghost var before := c.book;
      var v := c.Meet(m.guid, m.at);
      c.Beacon(v);
      RunTwo(before, Meet(m.guid, m.at), Op.Beacon(m.guid));
    }
  }

  // ---------------------------------------------------------------- from the wire to the tables

  /** A built search reply, once decoded, credits the server that sent it, unless the classifier takes it for a nameless search. */
  lemma BuiltReplyIsFolded(id: u32, port: u16, src: Addr, dst: Addr, sp: u16, dp: u16, serverPort: u16, b: CaBook, at: int, ref: nat)
    requires ServersInv(b.servers)
    ensures var p := Ca.ParseSpec(Ca.SearchReplyBytes(id, port), true);
            && p.err.None? && |p.msgs| == 1
            && var m := CaMessageOf(Ca.Interpret(p.msgs[0], Ca.Udp, src, dst, sp, dp, serverPort), at, ref);
            && (!(id == Ca.ANY_SENDER && (port == Ca.DO_REPLY || port == Ca.DONT_REPLY)) ==>
                  && m == CaReply(true, src, port, src, dst, id, true, at, ref)
                  && AnswersOf(Run(b, CaOps(m)).servers, (src, port)) == AnswersOf(b.servers, (src, port)) + 1)
  {
    Ca.ReplyRoundTrip(id, port, Ca.Udp, src, dst, sp, dp, serverPort);
    var m := CaMessageOf(Ca.Interpret(Ca.ParseSpec(Ca.SearchReplyBytes(id, port), true).msgs[0], Ca.Udp, src, dst, sp, dp, serverPort), at, ref);
    CaStepCounts(b, m, (src, port));
  }

  /** How many of the ids name a live search of the client and sequence a reply goes to. */
  function KnownIds(b: PvaBook, m: PvaMessage, ids: seq<i32>): nat
    requires m.PvaReply?
  {
    if ids == [] then 0
    else
      var n := |ids| - 1;
      KnownIds(b, m, ids[..n]) + if SearchPlace(b.searches, (m.dst, m.sequence, ids[n])) < |b.searches| then 1 else 0
  }

  /** Answering changes neither which searches are live nor which servers are known. */
  lemma {:induction false} AnswersCount(b: PvaBook, m: PvaMessage, ids: seq<i32>)
    requires m.PvaReply? && m.found && ServersInv(b.servers) && ServerPlace(b.servers, m.guid) < |b.servers|
    ensures var r := Run(b, AnswerAll(m, ids));
            && ServersInv(r.servers) && ServerPlace(r.servers, m.guid) < |r.servers|
            && (forall key :: SearchPlace(r.searches, key) == SearchPlace(b.searches, key)) && |r.searches| == |b.searches|
            && AnswersOf(r.servers, m.guid) == AnswersOf(b.servers, m.guid) + KnownIds(b, m, ids)
    decreases |ids|
  {
    if ids == [] {
    } else {
      var n := |ids| - 1;
      var op: PvaOp := Answer((m.dst, m.sequence, ids[n]), m.guid, m.found, m.at, m.ref, false);
      AnswersCount(b, m, ids[..n]);
      var r := Run(b, AnswerAll(m, ids[..n]));
      RunConcat(b, AnswerAll(m, ids[..n]), [op]);
      RunOne(r, op);
      StepServers(r, op);
      SamePlace(r.servers, Do(r, op).servers, m.guid);
      AnswerKeepsPlaces(r, op);
    }
  }

  lemma AnswerKeepsPlaces(b: PvaBook, op: PvaOp)
    requires op.Answer?
    ensures |Do(b, op).searches| == |b.searches| && forall key :: SearchPlace(Do(b, op).searches, key) == SearchPlace(b.searches, key)
  {
    var next := Do(b, op).searches;
    forall key ensures SearchPlace(next, key) == SearchPlace(b.searches, key) {
      assert forall k :: 0 <= k < |next| ==> next[k].key == b.searches[k].key;
    }
  }

  /** A built search response, once decoded, credits its server once for each of its ids that names a live search. */
  lemma BuiltResponseIsFolded(guid: Guid, id: i32, server: Addr, port: u16, ids: seq<i32>, src: Addr, dst: Addr, sp: u16, dp: u16,
                              b: PvaBook, at: int, ref: nat)
    requires |guid| == Pva.GUID_LEN && |ids| <= 65535 && ServersInv(b.servers)
    ensures var p := Pva.ParseSpec(PvaBuild.FrameBytes(Pva.CMD_SEARCH_RESPONSE, true, PvaBuild.ResponsePayload(guid, id, server, port, true, ids)));
            && p.err.None? && |p.msgs| == 1
            && var m := PvaMessageOf(PvaMessages.Interpreted(p.msgs[0], PvaMessages.Udp, src, dst, sp, dp), at, ref);
            && m == PvaReply(true, guid, src, dst, id, ids, true, at, ref)
            && AnswersOf(Run(b, PvaOps(m)).servers, guid) == AnswersOf(b.servers, guid) + KnownIds(b, m, ids)
  {
    PvaBuild.ResponseRoundTrip(guid, id, server, port, true, ids, src);
    ReplyCounts(PvaReply(true, guid, src, dst, id, ids, true, at, ref), b);
  }

  lemma ReplyCounts(m: PvaMessage, b: PvaBook)
    requires m.PvaReply? && m.found && ServersInv(b.servers)
    ensures AnswersOf(Run(b, PvaOps(m)).servers, m.guid) == AnswersOf(b.servers, m.guid) + KnownIds(b, m, m.ids)
  {
    var meet: PvaOp := Meet(m.guid, m.at);
    var met := Do(b, meet);
    RunOne(b, meet);
    RunConcat(b, [meet], AnswerAll(m, m.ids));
    StepServers(b, meet);
    MetKeepsServers(b.servers, m.guid, m.at);
    AnswersCount(met, m, m.ids);
    SameKnownIds(b, met, m, m.ids);
  }

  lemma {:induction false} SameKnownIds(b: PvaBook, met: PvaBook, m: PvaMessage, ids: seq<i32>)
    requires m.PvaReply? && met.searches == b.searches
    ensures KnownIds(met, m, ids) == KnownIds(b, m, ids)
    decreases |ids|
  {
    if ids == [] {
    } else {
      SameKnownIds(b, met, m, ids[..|ids| - 1]);
    }
  }
}
