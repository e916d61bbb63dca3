/**
  The temporary-address session (internal/networkcfg): several processes share a lock file, a
  session file and the kernel's address table, and any of them can die between any two steps.
  What one process does between taking and releasing the lock is a step function over the shared
  state; a run interleaves the processes, outside changes to the table and `ip` children that
  outlive the process that started them.
 */
module Session {
  import opened Bytes
  import opened Wrappers

  /** One attempted address add. detail stands for the version and the command line. */
  datatype Entry = Entry(iface: string, index: int, addr: u32, bits: nat, tag: string, addedAt: nat, detail: nat)

  /** An address with its prefix length on an interface. */
  datatype Target = Target(iface: string, addr: u32, bits: nat)

  function TargetOf(e: Entry): Target {
    Target(e.iface, e.addr, e.bits)
  }

  predicate SameAddress(x: Entry, e: Entry) {
    x.iface == e.iface && x.addr == e.addr
  }

  /**
    file is what the session file records, live the kernel's addresses and ours those of them an
    `ip` child of WirePup applied; adds and dels are the children whose process has died.
   */
  datatype Shared = Shared(file: seq<Entry>, live: set<Target>, ours: set<Target>, adds: set<Target>, dels: set<Target>)

  /** How far a process is in AddContext, Remove or RemoveOwned; s is the session it loaded. */
  datatype Pc =
    | Idle
    | AddLocked(e: Entry)
    | AddChecked(e: Entry, s: seq<Entry>)
    | AddSaved(e: Entry, s: seq<Entry>)
    | AddRunning(e: Entry, s: seq<Entry>, applied: bool)
    | AddFailed(e: Entry, s: seq<Entry>)
    | DropLocked(e: Entry, owned: bool)
    | DropPresent(i: nat, s: seq<Entry>)
    | DropRunning(i: nat, s: seq<Entry>, applied: bool)
    | DropReady(i: nat, s: seq<Entry>)

  /** How a finished `ip` child is reported. */
  datatype Outcome = Success | KnownFailure | Unknown

  datatype Action =
    | Check(loaded: bool)       // load the session and look the record up; inspect the interface
    | Save(ok: bool)            // save the session, before the add, to roll it back, or without the record
    | Spawn(started: bool)      // start ip, or fail to
    | Apply(also: set<Target>)  // the child changes the table; a deletion can cascade
    | Report(outcome: Outcome)
    | Quit                      // any error return that changes nothing

  // ---------------------------------------------------------------- looking a record up

  /** Where a removal finds its record. */
  datatype Search = Missing | Found(i: nat) | Changed

  /** Remove: the last record of the address with its prefix length. */
  function FindLast(s: seq<Entry>, e: Entry): (r: Search)
    ensures r.Found? ==> r.i < |s| && TargetOf(s[r.i]) == TargetOf(e) && forall k :: r.i < k < |s| ==> TargetOf(s[k]) != TargetOf(e)
    ensures r.Missing? ==> forall x :: x in s ==> TargetOf(x) != TargetOf(e)
    ensures !r.Changed?
    decreases |s|
  {
    var n := |s|;
    if n == 0 then Missing
    else if TargetOf(s[n - 1]) == TargetOf(e) then Found(n - 1)
    else FindLast(s[..n - 1], e)
  }

  /** A record that is not the entry's but is about the same address of its interface. */
  predicate Conflicts(x: Entry, e: Entry) {
    x != e && (x.iface == e.iface || x.index == e.index) && x.addr == e.addr
  }

  /** RemoveOwned: the one record equal to the entry, as long as no other record is about its address. */
  function FindOwned(s: seq<Entry>, e: Entry): (r: Search)
    ensures r.Found? ==> r.i < |s| && s[r.i] == e
    decreases |s|
  {
    var n := |s|;
    if n == 0 then Missing
    else
      var r := FindOwned(s[..n - 1], e);
      if r.Changed? then Changed
      else if s[n - 1] == e then (if r.Found? then Changed else Found(n - 1))
      else if Conflicts(s[n - 1], e) then Changed
      else r
  }

  /** The record says nothing about the entry's address. */
  predicate Unrelated(x: Entry, e: Entry) {
    x != e && !Conflicts(x, e)
  }

  predicate OnlyAt(s: seq<Entry>, e: Entry, i: nat) {
    i < |s| && s[i] == e && forall k :: 0 <= k < |s| && k != i ==> Unrelated(s[k], e)
  }

  /** An owned record is found exactly when it is the only one about its address, and missing when there is none. */
  lemma {:induction false} OwnedIsSole(s: seq<Entry>, e: Entry)
    ensures FindOwned(s, e).Missing? <==> forall k :: 0 <= k < |s| ==> Unrelated(s[k], e)
    ensures forall i: nat :: FindOwned(s, e) == Found(i) <==> OnlyAt(s, e, i)
    decreases |s|
  {
    var n := |s|;
    if n > 0 {
      var t := s[..n - 1];
      OwnedIsSole(t, e);
      assert forall k :: 0 <= k < n - 1 ==> t[k] == s[k];
      forall i: nat ensures FindOwned(s, e) == Found(i) <==> OnlyAt(s, e, i) {
        assert OnlyAt(s, e, i) && i < n - 1 ==> OnlyAt(t, e, i);
        assert i < n - 1 && OnlyAt(t, e, i) && Unrelated(s[n - 1], e) ==> OnlyAt(s, e, i);
      }
    }
  }

  function Find(s: seq<Entry>, e: Entry, owned: bool): Search {
    if owned then FindOwned(s, e) else FindLast(s, e)
  }

  predicate Fresh(s: seq<Entry>, e: Entry) {
    forall x :: x in s ==> !SameAddress(x, e)
  }

  function Without(s: seq<Entry>, i: nat): seq<Entry>
    requires i < |s|
  {
    s[..i] + s[i + 1..]
  }

  // ---------------------------------------------------------------- one process under the lock

  predicate Enabled(sh: Shared, pc: Pc, a: Action) {
    match a
    case Check(_) => pc.AddLocked? || pc.DropLocked?
    case Save(_) => pc.AddChecked? || (pc.AddFailed? && |pc.s| > 0) || (pc.DropReady? && pc.i < |pc.s|)
    case Spawn(_) => pc.AddSaved? || pc.DropPresent?
    case Apply(also) =>
      || (pc.AddRunning? && !pc.applied && TargetOf(pc.e) !in sh.live && also == {})
      || (pc.DropRunning? && !pc.applied && pc.i < |pc.s| && TargetOf(pc.s[pc.i]) in sh.live)
    case Report(outcome) =>
      && (pc.AddRunning? || pc.DropRunning?)
      && (outcome.Success? ==> pc.applied) && (outcome.KnownFailure? ==> !pc.applied)
    case Quit => pc.AddLocked? || pc.AddChecked? || pc.DropLocked? || pc.DropPresent?
  }

  function Checked(sh: Shared, pc: Pc): Pc
    requires pc.AddLocked? || pc.DropLocked?
  {
    match pc
    case AddLocked(e) => if Fresh(sh.file, e) then AddChecked(e, sh.file) else Idle
    case DropLocked(e, owned) =>
      var r := Find(sh.file, e, owned);
      if !r.Found? then Idle
      else if TargetOf(e) in sh.live then DropPresent(r.i, sh.file)
      else DropReady(r.i, sh.file)
  }

  /** The file after a save, and where the process goes on; a failed save leaves the file as it was. */
  function Saved(sh: Shared, pc: Pc, ok: bool): (Shared, Pc)
    requires Enabled(sh, pc, Save(ok))
  {
    match pc
    case AddChecked(e, s) => if ok then (sh.(file := s + [e]), AddSaved(e, s + [e])) else (sh, Idle)
    case AddFailed(e, s) => (if ok then sh.(file := s[..|s| - 1]) else sh, Idle)
    case DropReady(i, s) => (if ok then sh.(file := Without(s, i)) else sh, Idle)
  }

  function Applied(sh: Shared, pc: Pc, also: set<Target>): (Shared, Pc)
    requires Enabled(sh, pc, Apply(also))
  {
    match pc
    case AddRunning(e, s, _) =>
      (sh.(live := sh.live + {TargetOf(e)}, ours := sh.ours + {TargetOf(e)}), AddRunning(e, s, true))
    case DropRunning(i, s, _) =>
      var gone := {TargetOf(s[i])} + also;
      (sh.(live := sh.live - gone, ours := sh.ours - gone), DropRunning(i, s, true))
  }

  function Reported(pc: Pc, outcome: Outcome): Pc
    requires pc.AddRunning? || pc.DropRunning?
  {
    match pc
    case AddRunning(e, s, _) => if outcome.KnownFailure? then AddFailed(e, s) else Idle
    case DropRunning(i, s, _) => if outcome.Success? then DropReady(i, s) else Idle
  }

  /** One step of the process that holds the lock; it releases the lock when it becomes idle. */
  function Act(sh: Shared, pc: Pc, a: Action): (Shared, Pc)
    requires Enabled(sh, pc, a)
  {
    match a
    case Check(loaded) => (sh, if loaded then Checked(sh, pc) else Idle)
    case Save(ok) => Saved(sh, pc, ok)
    case Spawn(started) =>
      if pc.AddSaved? then (sh, if started then AddRunning(pc.e, pc.s, false) else AddFailed(pc.e, pc.s))
      else (sh, if started then DropRunning(pc.i, pc.s, false) else Idle)
    case Apply(also) => Applied(sh, pc, also)
    case Report(outcome) => (sh, Reported(pc, outcome))
    case Quit => (sh, Idle)
  }

  /** What a crash leaves: a child that has not acted yet runs on. */
  function Crashed(sh: Shared, pc: Pc): Shared {
    if pc.AddRunning? && !pc.applied then sh.(adds := sh.adds + {TargetOf(pc.e)})
    else if pc.DropRunning? && !pc.applied && pc.i < |pc.s| then sh.(dels := sh.dels + {TargetOf(pc.s[pc.i])})
    else sh
  }

  // ---------------------------------------------------------------- all processes

  /** pcs of the processes seen so far; an absent one is idle. */
  datatype World = World(sh: Shared, lock: Option<nat>, pcs: map<nat, Pc>)

  const INITIAL := World(Shared([], {}, {}, {}, {}), None, map[])

  function At(w: World, p: nat): Pc {
    if p in w.pcs then w.pcs[p] else Idle
  }

  datatype Step =
    | BeginAdd(p: nat, e: Entry)                  // p takes the lock to add
    | BeginDrop(p: nat, e: Entry, owned: bool)    // p takes the lock to remove
    | Process(p: nat, a: Action)
    | Crash(p: nat)
    | OutsideAdd(t: Target)
    | OutsideDelete(gone: set<Target>)
    | OrphanAdd(t: Target)                        // a child that outlived its process acts
    | OrphanDelete(t: Target, also: set<Target>)
    | OrphanEnds(t: Target)                       // or ends without acting

  predicate CanStep(w: World, step: Step) {
    match step
    case BeginAdd(p, _) => w.lock.None? && At(w, p).Idle?
    case BeginDrop(p, _, _) => w.lock.None? && At(w, p).Idle?
    case Process(p, a) => Enabled(w.sh, At(w, p), a)
    case Crash(_) => true
    case OutsideAdd(_) => true
    case OutsideDelete(_) => true
    case OrphanAdd(t) => t in w.sh.adds && t !in w.sh.live
    case OrphanDelete(t, _) => t in w.sh.dels
    case OrphanEnds(t) => t in w.sh.adds + w.sh.dels
  }

  function Moved(w: World, p: nat, sh: Shared, pc: Pc): World {
    World(sh, if pc.Idle? && w.lock == Some(p) then None else w.lock, w.pcs[p := pc])
  }

  function Next(w: World, step: Step): World
    requires CanStep(w, step)
  {
    match step
    case BeginAdd(p, e) => World(w.sh, Some(p), w.pcs[p := AddLocked(e)])
    case BeginDrop(p, e, owned) => World(w.sh, Some(p), w.pcs[p := DropLocked(e, owned)])
    case Process(p, a) => var (sh, pc) := Act(w.sh, At(w, p), a); Moved(w, p, sh, pc)
    case Crash(p) => Moved(w, p, Crashed(w.sh, At(w, p)), Idle)
    case OutsideAdd(t) => w.(sh := w.sh.(live := w.sh.live + {t}))
    case OutsideDelete(gone) => w.(sh := w.sh.(live := w.sh.live - gone, ours := w.sh.ours - gone))
    case OrphanAdd(t) => w.(sh := w.sh.(live := w.sh.live + {t}, ours := w.sh.ours + {t}, adds := w.sh.adds - {t}))
    case OrphanDelete(t, also) =>
      var gone := {t} + also;
      w.(sh := w.sh.(live := w.sh.live - gone, ours := w.sh.ours - gone, dels := w.sh.dels - {t}))
    case OrphanEnds(t) => w.(sh := w.sh.(adds := w.sh.adds - {t}, dels := w.sh.dels - {t}))
  }

  function Run(w: World, steps: seq<Step>): Option<World>
    decreases |steps|
  {
    if steps == [] then Some(w)
    else if CanStep(w, steps[0]) then Run(Next(w, steps[0]), steps[1..])
    else None
  }

  // ---------------------------------------------------------------- the invariant

  predicate Unique(s: seq<Entry>) {
    forall i, j :: 0 <= i < j < |s| ==> !SameAddress(s[i], s[j])
  }

  predicate Recorded(s: seq<Entry>, t: Target) {
    exists e :: e in s && TargetOf(e) == t
  }

  predicate Covers(s: seq<Entry>, ts: set<Target>) {
    forall t :: t in ts ==> Recorded(s, t)
  }

  /** At most one record per address, and one for each address WirePup has added or may still add. */
  predicate SharedInv(sh: Shared) {
    Unique(sh.file) && sh.ours <= sh.live && Covers(sh.file, sh.ours) && Covers(sh.file, sh.adds)
  }

  predicate NotOurs(sh: Shared, t: Target) {
    t !in sh.ours && t !in sh.adds
  }

  predicate LastIs(s: seq<Entry>, e: Entry) {
    |s| > 0 && s[|s| - 1] == e
  }

  predicate PcInv(sh: Shared, pc: Pc) {
    match pc
    case Idle => true
    case AddLocked(_) => true
    case DropLocked(_, _) => true
    case AddChecked(e, s) => s == sh.file && Fresh(s, e)
    case AddSaved(e, s) => s == sh.file && LastIs(s, e) && NotOurs(sh, TargetOf(e))
    case AddRunning(e, s, applied) => s == sh.file && LastIs(s, e) && (!applied ==> NotOurs(sh, TargetOf(e)))
    case AddFailed(e, s) => s == sh.file && LastIs(s, e) && NotOurs(sh, TargetOf(e))
    case DropPresent(i, s) => s == sh.file && i < |s| && TargetOf(s[i]) !in sh.adds
    case DropRunning(i, s, applied) => s == sh.file && i < |s| && TargetOf(s[i]) !in sh.adds && (applied ==> TargetOf(s[i]) !in sh.ours)
    case DropReady(i, s) => s == sh.file && i < |s| && NotOurs(sh, TargetOf(s[i]))
  }

  predicate Inv(w: World) {
    && SharedInv(w.sh)
    && (forall p :: p in w.pcs && !w.pcs[p].Idle? ==> w.lock == Some(p))
    && (forall p :: p in w.pcs ==> PcInv(w.sh, w.pcs[p]))
  }

  /** What a process knows of the file under the lock, whatever was applied. */
  predicate PcShape(file: seq<Entry>, pc: Pc) {
    match pc
    case Idle => true
    case AddLocked(_) => true
    case DropLocked(_, _) => true
    case AddChecked(e, s) => s == file && Fresh(s, e)
    case AddSaved(e, s) => s == file && LastIs(s, e)
    case AddRunning(e, s, _) => s == file && LastIs(s, e)
    case AddFailed(e, s) => s == file && LastIs(s, e)
    case DropPresent(i, s) => s == file && i < |s|
    case DropRunning(i, s, _) => s == file && i < |s|
    case DropReady(i, s) => s == file && i < |s|
  }

  /** The part of the invariant that every run keeps, careful or not. */
  predicate Shape(w: World) {
    && Unique(w.sh.file)
    && (forall p :: p in w.pcs && !w.pcs[p].Idle? ==> w.lock == Some(p))
    && (forall p :: p in w.pcs ==> PcShape(w.sh.file, w.pcs[p]))
  }

  /**
    A removal that finds its record while an `ip` child that is to add that address still runs
    without its process. Whoever starts a removal can check that no such child is left.
   */
  predicate Overtakes(sh: Shared, pc: Pc) {
    pc.DropLocked? && Find(sh.file, pc.e, pc.owned).Found? && TargetOf(pc.e) in sh.adds
  }

  predicate Careful(w: World, step: Step) {
    !(step.Process? && step.a == Check(true) && Overtakes(w.sh, At(w, step.p)))
  }

  predicate CarefulRun(w: World, steps: seq<Step>)
    decreases |steps|
  {
    steps == [] || (CanStep(w, steps[0]) && Careful(w, steps[0]) && CarefulRun(Next(w, steps[0]), steps[1..]))
  }

  // ---------------------------------------------------------------- every step keeps the invariant

  lemma RecordedStays(s: seq<Entry>, e: Entry, t: Target)
    requires Recorded(s, t)
    ensures Recorded(s + [e], t)
  {
    var x :| x in s && TargetOf(x) == t;
    assert x in s + [e];
  }

  lemma NotRecordedIfFresh(s: seq<Entry>, e: Entry)
    requires Fresh(s, e)
    ensures !Recorded(s, TargetOf(e))
  {
    if x :| x in s && TargetOf(x) == TargetOf(e) {
      assert SameAddress(x, e);
    }
  }

  /** Dropping one record leaves every other target recorded. */
  lemma RecordedWithout(s: seq<Entry>, i: nat, t: Target)
    requires i < |s| && Recorded(s, t) && t != TargetOf(s[i])
    ensures Recorded(Without(s, i), t)
  {
    var x :| x in s && TargetOf(x) == t;
    var k :| 0 <= k < |s| && s[k] == x;
    assert Without(s, i)[if k < i then k else k - 1] == x;
  }

  lemma UniqueWithout(s: seq<Entry>, i: nat)
    requires i < |s| && Unique(s)
    ensures Unique(Without(s, i))
  {
    var w := Without(s, i);
    forall j | 0 <= j < |w| ensures w[j] == s[if j < i then j else j + 1] {
    }
  }

  /** The file after dropping the record of an address that is not WirePup's any more. */
  lemma DropKeepsShared(sh: Shared, i: nat)
    requires SharedInv(sh) && i < |sh.file| && NotOurs(sh, TargetOf(sh.file[i]))
    ensures SharedInv(sh.(file := Without(sh.file, i)))
  {
    UniqueWithout(sh.file, i);
    forall t | t in sh.ours || t in sh.adds ensures Recorded(Without(sh.file, i), t) {
      RecordedWithout(sh.file, i, t);
    }
  }

  lemma SaveKeepsInv(sh: Shared, pc: Pc, ok: bool)
    requires SharedInv(sh) && PcInv(sh, pc) && Enabled(sh, pc, Save(ok))
    ensures SharedInv(Saved(sh, pc, ok).0) && PcInv(Saved(sh, pc, ok).0, Saved(sh, pc, ok).1)
  {
    match pc
    case AddChecked(e, s) =>
      NotRecordedIfFresh(s, e);
      forall t | t in sh.ours || t in sh.adds ensures Recorded(s + [e], t) {
        RecordedStays(s, e, t);
      }
    case AddFailed(e, s) =>
      assert Without(s, |s| - 1) == s[..|s| - 1];
      DropKeepsShared(sh, |s| - 1);
    case DropReady(i, s) =>
      DropKeepsShared(sh, i);
  }

  lemma CheckKeepsInv(sh: Shared, pc: Pc)
    requires SharedInv(sh) && (pc.AddLocked? || pc.DropLocked?) && !Overtakes(sh, pc)
    ensures PcInv(sh, Checked(sh, pc))
  {
  }

  lemma ApplyKeepsInv(sh: Shared, pc: Pc, also: set<Target>)
    requires SharedInv(sh) && PcInv(sh, pc) && Enabled(sh, pc, Apply(also))
    ensures SharedInv(Applied(sh, pc, also).0) && PcInv(Applied(sh, pc, also).0, Applied(sh, pc, also).1)
  {
    if pc.AddRunning? {
      assert pc.e in sh.file;
    }
  }

  lemma ActKeepsInv(sh: Shared, pc: Pc, a: Action)
    requires SharedInv(sh) && PcInv(sh, pc) && Enabled(sh, pc, a)
    requires a == Check(true) ==> !Overtakes(sh, pc)
    ensures SharedInv(Act(sh, pc, a).0) && PcInv(Act(sh, pc, a).0, Act(sh, pc, a).1)
  {
    match a
    case Check(loaded) => if loaded { CheckKeepsInv(sh, pc); }
    case Save(ok) => SaveKeepsInv(sh, pc, ok);
    case Apply(also) => ApplyKeepsInv(sh, pc, also);
    case _ =>
  }

  lemma CrashKeepsShared(sh: Shared, pc: Pc)
    requires SharedInv(sh) && PcInv(sh, pc)
    ensures SharedInv(Crashed(sh, pc))
  {
    if pc.AddRunning? {
      assert pc.e in sh.file;
    }
  }

  /** A process that does not hold the lock is idle, so nothing it relies on changes under it. */
  lemma MovedKeepsInv(w: World, p: nat, sh: Shared, pc: Pc)
    requires Inv(w) && SharedInv(sh) && PcInv(sh, pc)
    requires w.lock == Some(p) || (pc.Idle? && (sh == w.sh || w.lock.None?))
    ensures Inv(Moved(w, p, sh, pc))
  {
  }

  lemma OutsideKeepsInv(w: World, step: Step)
    requires Inv(w) && CanStep(w, step)
    requires step.OutsideAdd? || step.OutsideDelete? || step.OrphanAdd? || step.OrphanDelete? || step.OrphanEnds?
    ensures Inv(Next(w, step))
  {
    var n := Next(w, step);
    forall p | p in n.pcs ensures PcInv(n.sh, n.pcs[p]) {
      assert PcInv(w.sh, w.pcs[p]);
    }
  }

  lemma StepKeepsInv(w: World, step: Step)
    requires Inv(w) && CanStep(w, step) && Careful(w, step)
    ensures Inv(Next(w, step))
  {
    match step
    case BeginAdd(p, e) =>
    case BeginDrop(p, e, owned) =>
    case Process(p, a) =>
      ActKeepsInv(w.sh, At(w, p), a);
      MovedKeepsInv(w, p, Act(w.sh, At(w, p), a).0, Act(w.sh, At(w, p), a).1);
    case Crash(p) =>
      CrashKeepsShared(w.sh, At(w, p));
      MovedKeepsInv(w, p, Crashed(w.sh, At(w, p)), Idle);
    case _ => OutsideKeepsInv(w, step);
  }

  lemma SaveKeepsShape(sh: Shared, pc: Pc, ok: bool)
    requires Unique(sh.file) && PcShape(sh.file, pc) && Enabled(sh, pc, Save(ok))
    ensures Unique(Saved(sh, pc, ok).0.file) && PcShape(Saved(sh, pc, ok).0.file, Saved(sh, pc, ok).1)
  {
    match pc
    case AddChecked(e, s) =>
    case AddFailed(e, s) => UniqueWithout(s, |s| - 1);
    case DropReady(i, s) => UniqueWithout(s, i);
  }

  lemma ActKeepsShape(sh: Shared, pc: Pc, a: Action)
    requires Unique(sh.file) && PcShape(sh.file, pc) && Enabled(sh, pc, a)
    ensures Unique(Act(sh, pc, a).0.file) && PcShape(Act(sh, pc, a).0.file, Act(sh, pc, a).1)
  {
    if a.Save? {
      SaveKeepsShape(sh, pc, a.ok);
    }
  }

  lemma StepKeepsShape(w: World, step: Step)
    requires Shape(w) && CanStep(w, step)
    ensures Shape(Next(w, step))
  {
    if step.Process? {
      ActKeepsShape(w.sh, At(w, step.p), step.a);
    }
  }

  lemma {:induction false} RunKeepsShape(w: World, steps: seq<Step>)
    requires Shape(w) && Run(w, steps).Some?
    ensures Shape(Run(w, steps).value)
    decreases |steps|
  {
    if steps == [] {
    } else {
      StepKeepsShape(w, steps[0]);
      RunKeepsShape(Next(w, steps[0]), steps[1..]);
    }
  }

  /** From an empty session no run at all, careful or not, ever records an address of an interface twice. */
  lemma RecordsAreUnique(steps: seq<Step>)
    requires Run(INITIAL, steps).Some?
    ensures Unique(Run(INITIAL, steps).value.sh.file)
  {
    RunKeepsShape(INITIAL, steps);
  }

  lemma {:induction false} RunKeepsInv(w: World, steps: seq<Step>)
    requires Inv(w) && CarefulRun(w, steps)
    ensures Run(w, steps).Some? && Inv(Run(w, steps).value)
    decreases |steps|
  {
    if steps == [] {
    } else {
      StepKeepsInv(w, steps[0]);
      RunKeepsInv(Next(w, steps[0]), steps[1..]);
    }
  }

  // ---------------------------------------------------------------- crash-safe recording

  /** Every live address WirePup applied is recorded. */
  predicate CrashSafe(w: World) {
    w.sh.ours <= w.sh.live && Covers(w.sh.file, w.sh.ours)
  }

  /**
    Whatever the interleaving and wherever processes die: as long as no removal overtakes a child
    that is still to add the same address, no address WirePup applied is without a record.
   */
  lemma CrashSafeRecording(steps: seq<Step>)
    requires CarefulRun(INITIAL, steps)
    ensures Run(INITIAL, steps).Some? && CrashSafe(Run(INITIAL, steps).value) && Unique(Run(INITIAL, steps).value.sh.file)
  {
    RunKeepsInv(INITIAL, steps);
  }

  /** From here some careful run applies an address without a record. */
  ghost predicate CanGoWrong(w: World) {
    exists steps :: CarefulRun(w, steps) && Run(w, steps).Some? && !CrashSafe(Run(w, steps).value)
  }

  lemma GoesWrongLater(w: World, step: Step)
    requires CanStep(w, step) && Careful(w, step) && CanGoWrong(Next(w, step))
    ensures CanGoWrong(w)
  {
    var n := Next(w, step);
    var steps :| CarefulRun(n, steps) && Run(n, steps).Some? && !CrashSafe(Run(n, steps).value);
    var all := [step] + steps;
    assert all[0] == step && all[1..] == steps;
    assert Run(w, all) == Run(n, steps);
    assert CarefulRun(w, all);
  }

  lemma WrongNow(w: World)
    requires !CrashSafe(w)
    ensures CanGoWrong(w)
  {
    assert CarefulRun(w, []) && Run(w, []) == Some(w);
  }

  lemma NotRecordedWithout(s: seq<Entry>, i: nat)
    requires i < |s| && Unique(s)
    ensures !Recorded(Without(s, i), TargetOf(s[i]))
  {
    var w := Without(s, i);
    forall k | 0 <= k < |w| ensures TargetOf(w[k]) != TargetOf(s[i]) {
      var j := if k < i then k else k + 1;
      assert w[k] == s[j];
      assert j < i ==> !SameAddress(s[j], s[i]);
      assert i < j ==> !SameAddress(s[i], s[j]);
    }
  }

  /** The record is dropped, and then the child applies the address. */
  lemma DropThenApply(w: World, p: nat)
    requires Unique(w.sh.file) && At(w, p).DropReady? && At(w, p).s == w.sh.file && At(w, p).i < |w.sh.file|
    requires var t := TargetOf(w.sh.file[At(w, p).i]); t in w.sh.adds && t !in w.sh.live
    ensures CanGoWrong(w)
  {
    var i := At(w, p).i;
    var t := TargetOf(w.sh.file[i]);
    NotRecordedWithout(w.sh.file, i);
    var dropped := Next(w, Process(p, Save(true)));
    assert dropped.sh.file == Without(w.sh.file, i);
    var applied := Next(dropped, OrphanAdd(t));
    assert t in applied.sh.ours;
    WrongNow(applied);
    GoesWrongLater(dropped, OrphanAdd(t));
    GoesWrongLater(w, Process(p, Save(true)));
  }

  /** The address is deleted first, then its record, and then the child applies it again. */
  lemma DeleteThenApply(w: World, p: nat)
    requires Unique(w.sh.file) && At(w, p).DropPresent? && At(w, p).s == w.sh.file && At(w, p).i < |w.sh.file|
    requires var t := TargetOf(w.sh.file[At(w, p).i]); t in w.sh.adds && t in w.sh.live
    ensures CanGoWrong(w)
  {
    var spawn, apply, report := Process(p, Spawn(true)), Process(p, Apply({})), Process(p, Report(Success));
    var w1 := Next(w, spawn);
    var w2 := Next(w1, apply);
    var w3 := Next(w2, report);
    DropThenApply(w3, p);
    GoesWrongLater(w2, report);
    GoesWrongLater(w1, apply);
    GoesWrongLater(w, spawn);
  }

  /**
    The exact condition: once a removal has looked its record up, a later unrecorded address is
    possible if and only if a child that is to add the same address outlived its process.
   */
  lemma GoesWrongIffOvertaking(w: World, p: nat)
    requires Inv(w) && At(w, p).DropLocked?
    ensures CanGoWrong(Next(w, Process(p, Check(true)))) <==> Overtakes(w.sh, At(w, p))
  {
    var n := Next(w, Process(p, Check(true)));
    var pc := At(w, p);
    if Overtakes(w.sh, pc) {
      if TargetOf(pc.e) in w.sh.live {
        DeleteThenApply(n, p);
      } else {
        DropThenApply(n, p);
      }
    } else {
      StepKeepsInv(w, Process(p, Check(true)));
      forall steps | CarefulRun(n, steps) && Run(n, steps).Some? ensures CrashSafe(Run(n, steps).value) {
        RunKeepsInv(n, steps);
      }
    }
  }

  /** Some run from here, careful or not, applies an address without a record. */
  ghost predicate Escapes(w: World) {
    exists steps :: Run(w, steps).Some? && !CrashSafe(Run(w, steps).value)
  }

  lemma EscapesLater(w: World, step: Step)
    requires CanStep(w, step) && Escapes(Next(w, step))
    ensures Escapes(w)
  {
    var n := Next(w, step);
    var steps :| Run(n, steps).Some? && !CrashSafe(Run(n, steps).value);
    var all := [step] + steps;
    assert all[0] == step && all[1..] == steps;
    assert Run(w, all) == Run(n, steps);
  }

  /** It happens: a process dies while `ip` runs, another removes the record, and then `ip` applies the address. */
  lemma DyingAddCanEscape(e: Entry)
    ensures Escapes(INITIAL)
  {
    var begin, check, save := BeginAdd(0, e), Process(0, Check(true)), Process(0, Save(true));
    var w1 := Next(INITIAL, begin);
    var w2 := Next(w1, check);
    var w3 := Next(w2, save);
    assert At(w3, 0) == AddSaved(e, [e]) && w3.sh == Shared([e], {}, {}, {}, {});
    EscapesAfterSave(w3, e);
    EscapesLater(w2, save);
    EscapesLater(w1, check);
    EscapesLater(INITIAL, begin);
  }

  lemma EscapesAfterSave(w: World, e: Entry)
    requires At(w, 0) == AddSaved(e, [e]) && w.sh == Shared([e], {}, {}, {}, {}) && w.lock == Some(0) && w.pcs.Keys == {0}
    ensures Escapes(w)
  {
    var spawn, drop, check := Process(0, Spawn(true)), BeginDrop(1, e, false), Process(1, Check(true));
    var w1 := Next(w, spawn);
    var w2 := Next(w1, Crash(0));
    var w3 := Next(w2, drop);
    assert e in w3.sh.file;
    assert Recorded(w3.sh.file, TargetOf(e));
    assert Overtakes(w3.sh, At(w3, 1));
    GoesWrongIffOvertaking(w3, 1);
    EscapesLater(w3, check);
    EscapesLater(w2, drop);
    EscapesLater(w1, Crash(0));
    EscapesLater(w, spawn);
  }

  // ---------------------------------------------------------------- record discipline

  /** The records about other addresses, in order. */
  function Others(s: seq<Entry>, e: Entry): seq<Entry>
    decreases |s|
  {
    if s == [] then []
    else
      var n := |s| - 1;
      Others(s[..n], e) + if SameAddress(s[n], e) then [] else [s[n]]
  }

  lemma {:induction false} OthersConcat(s: seq<Entry>, t: seq<Entry>, e: Entry)
    ensures Others(s + t, e) == Others(s, e) + Others(t, e)
    decreases |t|
  {
    if t == [] {
      assert s + t == s;
    } else {
      var n := |t| - 1;
      assert (s + t)[..|s| + n] == s + t[..n] && (s + t)[|s| + n] == t[n];
      OthersConcat(s, t[..n], e);
    }
  }

  lemma OthersWithout(s: seq<Entry>, i: nat, e: Entry)
    requires i < |s| && SameAddress(s[i], e)
    ensures Others(Without(s, i), e) == Others(s, e)
  {
    assert s == s[..i] + ([s[i]] + s[i + 1..]);
    OthersConcat(s[..i], [s[i]] + s[i + 1..], e);
    OthersConcat([s[i]], s[i + 1..], e);
    OthersConcat(s[..i], s[i + 1..], e);
    assert [s[i]][..0] == [];
    assert Others([s[i]], e) == [];
  }

  /** The entry a process is working on. */
  function Subject(pc: Pc): Option<Entry> {
    match pc
    case Idle => None
    case AddLocked(e) => Some(e)
    case AddChecked(e, _) => Some(e)
    case AddSaved(e, _) => Some(e)
    case AddRunning(e, _, _) => Some(e)
    case AddFailed(e, _) => Some(e)
    case DropLocked(e, _) => Some(e)
    case DropPresent(i, s) => if i < |s| then Some(s[i]) else None
    case DropRunning(i, s, _) => if i < |s| then Some(s[i]) else None
    case DropReady(i, s) => if i < |s| then Some(s[i]) else None
  }

  lemma SaveKeepsOthers(sh: Shared, pc: Pc)
    requires PcShape(sh.file, pc) && Enabled(sh, pc, Save(true))
    ensures Subject(pc).Some? && Others(Saved(sh, pc, true).0.file, Subject(pc).value) == Others(sh.file, Subject(pc).value)
  {
    match pc
    case AddChecked(e, s) =>
      OthersConcat(s, [e], e);
      assert [e][..0] == [];
      assert Others([e], e) == [];
    case AddFailed(e, s) =>
      assert Without(s, |s| - 1) == s[..|s| - 1];
      OthersWithout(s, |s| - 1, e);
    case DropReady(i, s) =>
      OthersWithout(s, i, s[i]);
  }

  /**
    A step changes the file only if it is a save of the process that holds the lock, and then every
    record about another address than the one it works on stays, in order.
   */
  lemma StepKeepsOthers(w: World, step: Step)
    requires Shape(w) && CanStep(w, step)
    ensures Next(w, step).sh.file != w.sh.file ==>
              && step.Process? && step.a == Save(true) && w.lock == Some(step.p) && Subject(At(w, step.p)).Some?
              && Others(Next(w, step).sh.file, Subject(At(w, step.p)).value) == Others(w.sh.file, Subject(At(w, step.p)).value)
  {
    if step.Process? && step.a == Save(true) {
      SaveKeepsOthers(w.sh, At(w, step.p));
    }
  }

  /** The step takes the address from the table. */
  predicate Deletes(w: World, step: Step, t: Target) {
    match step
    case Process(p, Apply(also)) =>
      var pc := At(w, p);
      pc.DropRunning? && pc.i < |pc.s| && (t == TargetOf(pc.s[pc.i]) || t in also)
    case OutsideDelete(gone) => t in gone
    case OrphanDelete(d, also) => t == d || t in also
    case _ => false
  }

  predicate Spares(w: World, steps: seq<Step>, t: Target)
    decreases |steps|
  {
    steps == [] || (CanStep(w, steps[0]) && !Deletes(w, steps[0], t) && Spares(Next(w, steps[0]), steps[1..], t))
  }

  lemma {:induction false} OursUntilDeleted(w: World, steps: seq<Step>, t: Target)
    requires Inv(w) && t in w.sh.ours && CarefulRun(w, steps) && Spares(w, steps, t)
    ensures Run(w, steps).Some? && t in Run(w, steps).value.sh.ours && Recorded(Run(w, steps).value.sh.file, t)
    decreases |steps|
  {
    if steps == [] {
    } else {
      StepKeepsInv(w, steps[0]);
      assert t in Next(w, steps[0]).sh.ours;
      OursUntilDeleted(Next(w, steps[0]), steps[1..], t);
    }
  }

  /**
    An add that applies its address leaves it live and on record until something deletes it, whatever
    the add's own process, other processes and the outside do in between.
   */
  lemma AppliedStaysRecorded(w: World, p: nat, steps: seq<Step>)
    requires Inv(w) && At(w, p).AddRunning? && CanStep(w, Process(p, Apply({})))
    requires CarefulRun(w, [Process(p, Apply({}))] + steps)
    requires Spares(Next(w, Process(p, Apply({}))), steps, TargetOf(At(w, p).e))
    ensures var t := TargetOf(At(w, p).e);
            var v := Run(Next(w, Process(p, Apply({}))), steps);
            v.Some? && t in v.value.sh.live && Recorded(v.value.sh.file, t)
  {
    var step := Process(p, Apply({}));
    assert ([step] + steps)[1..] == steps && ([step] + steps)[0] == step;
    StepKeepsInv(w, step);
    OursUntilDeleted(Next(w, step), steps, TargetOf(At(w, p).e));
    RunKeepsInv(Next(w, step), steps);
  }
}
