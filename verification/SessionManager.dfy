/**
  AddContext, Remove and RemoveOwned (internal/networkcfg/networkcfg.go) step by step: each call is a
  run of the session protocol, and its contract says what it leaves in the session file and the kernel's
  address table. What the file system, `ip` and the inspection do is the caller's choice.
 */
module SessionManager {
  import opened Bytes
  import opened Wrappers
  import opened Session
  import Owned

  datatype Error =
    | Cancelled | LockFailed | LoadFailed | SaveFailed | NoIp | AlreadyRecorded | NotRecorded | InvalidEntry
    | OwnershipChanged | InspectionFailed(why: Owned.InspectError)
    | OutcomeUnknown | IpFailed | IpFailedUnsaved

  /**
    What the outside world answers in one call: cancellation before the lock and after loading, the lock, the
    interface lookup and load together, finding ip, the first save, ip itself with what a
    deletion takes along, and the second save.
   */
  datatype Answers = Answers(cancelled: bool, locked: bool, loaded: bool, cancelledLate: bool, ipFound: bool, saved: bool, started: bool,
                             applies: bool, also: set<Target>, outcome: Outcome, savedAfter: bool)

  /** Outcomes are reported truthfully: success means applied, a known failure not applied. */
  predicate Truthful(a: Answers, possible: bool) {
    && (a.applies ==> a.started && possible)
    && (a.started && a.outcome.Success? ==> a.applies)
    && (a.started && a.outcome.KnownFailure? ==> !a.applies)
  }

  /** An add gets as far as running ip: nothing cancels it, its record is new and is saved. */
  predicate Recordable(a: Answers, e: Entry, file: seq<Entry>) {
    !a.cancelled && a.ipFound && e.bits <= 32 && a.locked && a.loaded && Fresh(file, e) && !a.cancelledLate && a.saved
  }

  /** Everything an add asks for works. */
  predicate AddWorks(a: Answers, e: Entry, file: seq<Entry>) {
    Recordable(a, e, file) && a.started && a.outcome.Success?
  }

  /** What keeps an add from recording anything, each error with the answers that give it. */
  predicate RefusedBy(x: Error, a: Answers, e: Entry, file: seq<Entry>) {
    var asked := !a.cancelled && a.ipFound && e.bits <= 32;
    match x
    case Cancelled => a.cancelled || (asked && a.locked && a.loaded && Fresh(file, e) && a.cancelledLate)
    case NoIp => !a.cancelled && !a.ipFound
    case InvalidEntry => !a.cancelled && a.ipFound && e.bits > 32
    case LockFailed => asked && !a.locked
    case LoadFailed => asked && a.locked && !a.loaded
    case AlreadyRecorded => asked && a.locked && a.loaded && !Fresh(file, e)
    case SaveFailed => asked && a.locked && a.loaded && Fresh(file, e) && !a.cancelledLate && !a.saved
    case _ => false
  }

  /** What a recorded add can fail with: ip was not confirmed, or failed with its record rolled back or not. */
  predicate FailedBy(x: Error, a: Answers) {
    var known := !a.started || a.outcome.KnownFailure?;
    match x
    case OutcomeUnknown => a.started && a.outcome.Unknown?
    case IpFailed => known && a.savedAfter
    case IpFailedUnsaved => known && !a.savedAfter
    case _ => false
  }

  /** Everything a removal asks for works. */
  predicate Works(a: Answers, possible: bool) {
    && !a.cancelled && a.locked && a.loaded && !a.cancelledLate && a.ipFound && a.savedAfter
    && (possible ==> a.started && a.outcome.Success?)
  }

  /** An entry RemoveOwned looks at: AddContext only returns such entries. */
  predicate Complete(e: Entry) {
    |e.iface| > 0 && e.index > 0 && e.bits <= 32 && e.addedAt > 0
  }

  /** Some run leads from w to v, and a careful one if asked for. */
  ghost predicate Reaches(w: World, v: World, careful: bool) {
    exists steps :: Run(w, steps) == Some(v) && (careful ==> CarefulRun(w, steps))
  }

  lemma {:induction false} RunsConcat(w: World, xs: seq<Step>, ys: seq<Step>)
    requires Run(w, xs).Some?
    ensures Run(w, xs + ys) == Run(Run(w, xs).value, ys)
    ensures CarefulRun(w, xs + ys) <==> CarefulRun(w, xs) && CarefulRun(Run(w, xs).value, ys)
    decreases |xs|
  {
    if xs == [] {
      assert xs + ys == ys;
    } else {
      assert (xs + ys)[1..] == xs[1..] + ys;
      RunsConcat(Next(w, xs[0]), xs[1..], ys);
    }
  }

  lemma ReachesHere(w: World)
    ensures Reaches(w, w, true)
  {
    assert CarefulRun(w, []) && Run(w, []) == Some(w);
  }

  lemma ReachesOn(w: World, v: World, careful: bool, steps: seq<Step>)
    requires Reaches(w, v, careful) && Run(v, steps).Some?
    ensures Reaches(w, Run(v, steps).value, careful && CarefulRun(v, steps))
  {
    var before :| Run(w, before) == Some(v) && (careful ==> CarefulRun(w, before));
    RunsConcat(w, before, steps);
  }

  lemma ReachesNext(w: World, v: World, careful: bool, step: Step)
    requires Reaches(w, v, careful) && CanStep(v, step)
    ensures Reaches(w, Next(v, step), careful && Careful(v, step))
  {
    var n := Next(v, step);
    assert [step][1..] == [];
    assert Run(n, []) == Some(n) && CarefulRun(n, []);
    assert Run(v, [step]) == Some(n);
    ReachesOn(w, v, careful, [step]);
  }

  /** One process with the session file and the address table it shares with the others. */
  class Manager {
    const pid: nat
    var file: seq<Entry>
    var live: set<Target>
    ghost var world: World
    ghost var origin: World
    /** No removal so far has overtaken a child that is still to add its address. */
    ghost var careful: bool

    ghost predicate Agrees()
      reads this
    {
      && Shape(world) && Reaches(origin, world, careful) && (careful ==> Inv(world))
      && world.sh.file == file && world.sh.live == live
    }

    /** Between two calls the lock is free and this process idle. */
    ghost predicate Valid()
      reads this
    {
      Agrees() && world.lock.None? && At(world, pid).Idle?
    }

    constructor (pid: nat)
      ensures Valid() && world == origin == INITIAL && file == [] && live == {} && careful
    {
      this.pid := pid;
      file, live, world, origin, careful := [], {}, INITIAL, INITIAL, true;
      new;
      ReachesHere(INITIAL);
    }

    ghost predicate Tracks()
      reads this
    {
      Shape(world) && Reaches(origin, world, careful) && (careful ==> Inv(world))
    }

    /** The protocol takes one step of this process. */
    ghost method Follow(a: Action)
      requires Tracks() && Enabled(world.sh, At(world, pid), a) && !At(world, pid).Idle?
      modifies `world, `careful
      ensures Tracks()
      ensures careful == (old(careful) && !(a == Check(true) && Overtakes(old(world).sh, At(old(world), pid))))
      ensures world.sh == Act(old(world).sh, At(old(world), pid), a).0
      ensures At(world, pid) == Act(old(world).sh, At(old(world), pid), a).1
      ensures world.lock == if At(world, pid).Idle? then None else Some(pid)
    {
      var step := Process(pid, a);
      StepKeepsShape(world, step);
      ReachesNext(origin, world, careful, step);
      if careful && Careful(world, step) {
        StepKeepsInv(world, step);
      }
      careful := careful && Careful(world, step);
      world := Next(world, step);
    }

    ghost method Begin(step: Step)
      requires Valid() && (step.BeginAdd? || step.BeginDrop?) && step.p == pid
      modifies `world
      ensures Tracks() && world.sh == old(world).sh && world.lock == Some(pid)
      ensures At(world, pid) == if step.BeginAdd? then AddLocked(step.e) else DropLocked(step.e, step.owned)
    {
      StepKeepsShape(world, step);
      ReachesNext(origin, world, careful, step);
      if careful {
        StepKeepsInv(world, step);
      }
      world := Next(world, step);
    }

    /** Between two calls other processes, orphaned children and the outside do what they like. */
    method Meanwhile(file': seq<Entry>, live': set<Target>, ghost steps: seq<Step>)
      requires Valid() && Run(world, steps).Some?
      requires var v := Run(world, steps).value; v.sh.file == file' && v.sh.live == live' && v.lock.None? && At(v, pid).Idle?
      modifies this
      ensures Valid() && origin == old(origin) && file == file' && live == live'
      ensures world == Run(old(world), steps).value && careful == (old(careful) && CarefulRun(old(world), steps))
    {
      RunKeepsShape(world, steps);
      ReachesOn(origin, world, careful, steps);
      if careful && CarefulRun(world, steps) {
        RunKeepsInv(world, steps);
      }
      careful := careful && CarefulRun(world, steps);
      world := Run(world, steps).value;
      file, live := file', live';
    }

    /** Whether the session has no record about the entry's address yet. */
    method IsFresh(e: Entry) returns (isNew: bool)
      ensures isNew == Fresh(file, e)
    {
      for i := 0 to |file|
        invariant forall k :: 0 <= k < i ==> !SameAddress(file[k], e)
      {
        if SameAddress(file[i], e) {
          return false;
        }
      }
      isNew := true;
    }

    /** Records the entry and saves it, before anything is applied. */
    method Record(e: Entry, a: Answers) returns (err: Option<Error>)
      requires Valid()
      modifies this
      ensures Agrees() && origin == old(origin) && careful == old(careful) && live == old(live)
      ensures err.Some? ==> Valid() && file == old(file)
      ensures err == Some(LoadFailed) <==> !a.loaded
      ensures err == Some(AlreadyRecorded) <==> a.loaded && !Fresh(old(file), e)
      ensures err == Some(Cancelled) <==> a.loaded && Fresh(old(file), e) && a.cancelledLate
      ensures err == Some(SaveFailed) <==> a.loaded && Fresh(old(file), e) && !a.cancelledLate && !a.saved
      ensures err.None? ==> Fresh(old(file), e) && file == old(file) + [e] && At(world, pid) == AddSaved(e, file) && world.lock == Some(pid)
      ensures err.None? <==> a.loaded && a.saved && !a.cancelledLate && Fresh(old(file), e)
    {
      Begin(BeginAdd(pid, e));
      if !a.loaded {
        Follow(Check(false));
        return Some(LoadFailed);
      }
      var isNew := IsFresh(e);
      Follow(Check(true));
      if !isNew {
        return Some(AlreadyRecorded);
      }
      if a.cancelledLate {
        Follow(Quit);
        return Some(Cancelled);
      }
      err := SaveNew(e, a.saved);
    }

    /** Saves the session with the new record. */
    method SaveNew(e: Entry, saved: bool) returns (err: Option<Error>)
      requires Agrees() && world.lock == Some(pid) && At(world, pid) == AddChecked(e, file)
      modifies `file, `world, `careful
      ensures Agrees() && careful == old(careful)
      ensures if saved then err.None? && file == old(file) + [e] && At(world, pid) == AddSaved(e, file) && world.lock == Some(pid)
              else err == Some(SaveFailed) && file == old(file) && Valid()
    {
      Follow(Save(saved));
      if !saved {
        return Some(SaveFailed);
      }
      file := file + [e];
      err := None;
    }

    /** Runs ip to add the recorded address, and rolls the record back after a known failure. */
    method Configure(e: Entry, a: Answers) returns (r: Result<Entry, Error>)
      requires Agrees() && At(world, pid) == AddSaved(e, file) && world.lock == Some(pid) && LastIs(file, e)
      requires Truthful(a, TargetOf(e) !in live)
      modifies this
      ensures Valid() && origin == old(origin) && careful == old(careful)
      ensures live == if a.applies then old(live) + {TargetOf(e)} else old(live)
      ensures r.Ok? ==> r.value == e && a.applies && file == old(file)
      ensures r.Err? ==> FailedBy(r.error, a)
      ensures r.Err? && !r.error.IpFailed? ==> file == old(file)
      ensures r == Err(IpFailed) ==> !a.applies && file == old(file)[..|old(file)| - 1]
      ensures r == Err(IpFailedUnsaved) ==> !a.applies
      ensures r.Ok? <==> a.started && a.outcome.Success?
    {
      Follow(Spawn(a.started));
      if a.started {
        if a.applies {
          Follow(Apply({}));
          live := live + {TargetOf(e)};
        }
        Follow(Report(a.outcome));
        if a.outcome.Success? {
          return Ok(e);
        }
        if a.outcome.Unknown? {
          return Err(OutcomeUnknown);
        }
      }
      Follow(Save(a.savedAfter));
      if a.savedAfter {
        file := file[..|file| - 1];
        return Err(IpFailed);
      }
      r := Err(IpFailedUnsaved);
    }

    /**
      Records, then applies. The entry is returned exactly when everything asked for works, every failure
      has its cause, and what is recorded and live afterwards follows from how far the call got.
     */
    method AddContext(e: Entry, a: Answers) returns (r: Result<Entry, Error>)
      requires Valid() && Truthful(a, TargetOf(e) !in live)
      modifies this
      ensures Valid() && origin == old(origin) && careful == old(careful)
      ensures r.Ok? <==> AddWorks(a, e, old(file))
      ensures r.Ok? ==> r.value == e && file == old(file) + [e] && TargetOf(e) !in old(live) && live == old(live) + {TargetOf(e)}
      ensures r.Err? ==> if Recordable(a, e, old(file)) then FailedBy(r.error, a) else RefusedBy(r.error, a, e, old(file))
      ensures live == if Recordable(a, e, old(file)) && a.applies then old(live) + {TargetOf(e)} else old(live)
      ensures file == if Recordable(a, e, old(file)) && r != Err(IpFailed) then old(file) + [e] else old(file)
    {
      if a.cancelled {
        return Err(Cancelled);
      }
      if !a.ipFound {
        return Err(NoIp);
      }
      if e.bits > 32 {
        return Err(InvalidEntry);
      }
      if !a.locked {
        return Err(LockFailed);
      }
      var err := Record(e, a);
      if err.Some? {
        return Err(err.value);
      }
      assert file[..|file| - 1] == old(file);
      r := Configure(e, a);
    }

    // ---------------------------------------------------------------- removal

    /** Where Remove finds the record: the last one of the address and prefix length. */
    method LookUp(e: Entry) returns (r: Search)
      ensures r == FindLast(file, e)
    {
      r := Missing;
      for i := 0 to |file|
        invariant r == FindLast(file[..i], e)
      {
        assert file[..i + 1][..i] == file[..i];
        if TargetOf(file[i]) == TargetOf(e) {
          r := Found(i);
        }
      }
      assert file[..|file|] == file;
    }

    /** Where RemoveOwned finds the record: the only one about the address, if it is the entry's. */
    method LookUpOwned(e: Entry) returns (r: Search)
      ensures r == FindOwned(file, e)
    {
      r := Missing;
      for i := 0 to |file|
        invariant r == FindOwned(file[..i], e) && !r.Changed?
      {
        assert file[..i + 1][..i] == file[..i];
        if file[i] == e {
          if r.Found? {
            ChangedStays(file, e, i + 1);
            return Changed;
          }
          r := Found(i);
        } else if Conflicts(file[i], e) {
          ChangedStays(file, e, i + 1);
          return Changed;
        }
      }
      assert file[..|file|] == file;
    }

    /** Runs ip to delete a live address; on success its record is to be dropped next. */
    method Delete(i: nat, e: Entry, a: Answers) returns (ran: bool, err: Option<Error>)
      requires Agrees() && world.lock == Some(pid) && i < |file| && TargetOf(file[i]) == TargetOf(e)
      requires At(world, pid) == DropPresent(i, file) && TargetOf(e) in live && Truthful(a, true)
      modifies `live, `world, `careful
      ensures Agrees() && origin == old(origin) && careful == old(careful) && world.sh.adds == old(world.sh.adds)
      ensures err.None? ==> ran && At(world, pid) == DropReady(i, file) && world.lock == Some(pid)
      ensures err.Some? ==> Valid() && (err.value.NoIp? || err.value.IpFailed? || err.value.OutcomeUnknown?)
      ensures ran == a.ipFound && live == if ran && a.applies then old(live) - ({TargetOf(e)} + a.also) else old(live)
      ensures err.None? <==> a.ipFound && a.started && a.outcome.Success?
    {
      ran := a.ipFound;
      if !a.ipFound {
        Follow(Quit);
        return ran, Some(NoIp);
      }
      Follow(Spawn(a.started));
      if !a.started {
        return ran, Some(IpFailed);
      }
      if a.applies {
        Follow(Apply(a.also));
        live := live - ({TargetOf(e)} + a.also);
      }
      Follow(Report(a.outcome));
      err := if a.outcome.Success? then None else Some(if a.outcome.Unknown? then OutcomeUnknown else IpFailed);
    }

    /** Deletes the address if it is live, and then drops record i. */
    method Drop(i: nat, e: Entry, a: Answers) returns (ran: bool, err: Option<Error>)
      requires Agrees() && world.lock == Some(pid) && i < |file| && TargetOf(file[i]) == TargetOf(e)
      requires At(world, pid) == if TargetOf(e) in live then DropPresent(i, file) else DropReady(i, file)
      requires Truthful(a, TargetOf(e) in live)
      modifies this
      ensures Valid() && origin == old(origin) && careful == old(careful)
      ensures live == if ran && a.applies then old(live) - ({TargetOf(e)} + a.also) else old(live)
      ensures err.None? ==> file == Without(old(file), i) && TargetOf(e) !in live
      ensures err.Some? ==> file == old(file)
      ensures ran <==> TargetOf(e) in old(live) && a.ipFound
      ensures world.sh.adds == old(world.sh.adds)
      ensures err.Some? ==> err.value.NoIp? || err.value.IpFailed? || err.value.OutcomeUnknown? || err.value.SaveFailed?
      ensures err.None? <==> a.savedAfter && (TargetOf(e) in old(live) ==> a.ipFound && a.started && a.outcome.Success?)
    {
      ran := false;
      if TargetOf(e) in live {
        ran, err := Delete(i, e, a);
        if err.Some? {
          return;
        }
      }
      Follow(Save(a.savedAfter));
      if !a.savedAfter {
        return ran, Some(SaveFailed);
      }
      file := Without(file, i);
      err := None;
    }

    /** Removes one recorded address; it is a careful step unless a child of a dead process is still to add the address. */
    method Remove(e: Entry, a: Answers) returns (ran: bool, err: Option<Error>)
      requires Valid() && Truthful(a, TargetOf(e) in live)
      modifies this
      ensures Valid() && origin == old(origin)
      ensures old(careful) && TargetOf(e) !in old(world.sh.adds) ==> careful
      ensures live == if ran && a.applies then old(live) - ({TargetOf(e)} + a.also) else old(live)
      ensures ran <==> a.locked && a.loaded && FindLast(old(file), e).Found? && TargetOf(e) in old(live) && a.ipFound
      ensures err.None? <==> && a.locked && a.loaded && FindLast(old(file), e).Found? && a.savedAfter
                             && (TargetOf(e) in old(live) ==> a.ipFound && a.started && a.outcome.Success?)
      ensures err.None? ==> FindLast(old(file), e).Found? && file == Without(old(file), FindLast(old(file), e).i) && TargetOf(e) !in live
      ensures err.Some? ==> file == old(file)
      ensures err == Some(LockFailed) <==> !a.locked
      ensures err == Some(LoadFailed) <==> a.locked && !a.loaded
      ensures err == Some(NotRecorded) <==> a.locked && a.loaded && FindLast(old(file), e).Missing?
    {
      if !a.locked {
        return false, Some(LockFailed);
      }
      Begin(BeginDrop(pid, e, false));
      if !a.loaded {
        Follow(Check(false));
        return false, Some(LoadFailed);
      }
      var r := LookUp(e);
      Follow(Check(true));
      if !r.Found? {
        return false, Some(NotRecorded);
      }
      ran, err := Drop(r.i, e, a);
    }

    /** The inspection agrees with the address table about whether the entry's address is live. */
    ghost predicate Accurate(d: Owned.Dumps, e: Entry)
      reads this
    {
      Owned.Inspected(d, e).Ok? ==> (Owned.Inspected(d, e).value <==> TargetOf(e) in live)
    }

    /** Removes exactly the entry's own record and address, or changes nothing it should keep. */
    method RemoveOwned(e: Entry, d: Owned.Dumps, a: Answers) returns (ran: bool, err: Option<Error>)
      requires Valid() && Truthful(a, TargetOf(e) in live) && Accurate(d, e)
      modifies this
      ensures Valid() && origin == old(origin) && world.sh.adds == old(world.sh.adds)
      ensures old(careful) && TargetOf(e) !in world.sh.adds ==> careful
      ensures OwnedRemoval(old(file), old(live), file, live, e, Owned.Inspected(d, e), a, ran, err)
    {
      if a.cancelled {
        return false, Some(Cancelled);
      }
      if !Complete(e) {
        return false, Some(InvalidEntry);
      }
      if !a.locked {
        return false, Some(LockFailed);
      }
      ran, err := RemoveChecked(e, d, a);
    }

    /** The part of RemoveOwned under the lock. */
    method RemoveChecked(e: Entry, d: Owned.Dumps, a: Answers) returns (ran: bool, err: Option<Error>)
      requires Valid() && Truthful(a, TargetOf(e) in live) && Accurate(d, e)
      requires !a.cancelled && Complete(e) && a.locked
      modifies this
      ensures Valid() && origin == old(origin) && world.sh.adds == old(world.sh.adds)
      ensures old(careful) && TargetOf(e) !in world.sh.adds ==> careful
      ensures OwnedRemoval(old(file), old(live), file, live, e, Owned.Inspected(d, e), a, ran, err)
    {
      Begin(BeginDrop(pid, e, true));
      if !a.loaded {
        Follow(Check(false));
        return false, Some(LoadFailed);
      }
      var r := LookUpOwned(e);
      if r.Changed? {
        Follow(Check(true));
        return false, Some(OwnershipChanged);
      }
      var present := Owned.Inspect(d, e);
      if present.Err? {
        Follow(Check(false));
        return false, Some(InspectionFailed(present.error));
      }
      if a.cancelledLate {
        Follow(Check(false));
        return false, Some(Cancelled);
      }
      Follow(Check(true));
      if r.Found? {
        ran, err := Drop(r.i, e, a);
      } else {
        ran, err := false, if present.value then Some(NotRecorded) else None;
      }
    }
  }

  /** An owned removal gets as far as a decision: nothing cancels it, and record and address were looked up. */
  predicate Decidable(file: seq<Entry>, e: Entry, inspected: Result<bool, Owned.InspectError>, a: Answers) {
    && !a.cancelled && Complete(e) && a.locked && a.loaded && !FindOwned(file, e).Changed? && inspected.Ok? && !a.cancelledLate
  }

  /** The answers under which an owned removal succeeds: its record goes with its address, or neither was there. */
  predicate OwnedWorks(file: seq<Entry>, live: set<Target>, e: Entry, inspected: Result<bool, Owned.InspectError>, a: Answers) {
    && Decidable(file, e, inspected, a)
    && if FindOwned(file, e).Missing? then TargetOf(e) !in live
       else a.savedAfter && (TargetOf(e) in live ==> a.ipFound && a.started && a.outcome.Success?)
  }

  /**
    What an owned removal makes of file and live addresses: ip runs only after an inspection that found the
    address, success leaves neither record nor address, failure leaves the file. It succeeds exactly when
    everything works, and tells apart a record that is not the entry's, a failed inspection and a live
    address without a record.
   */
  ghost predicate OwnedRemoval(file: seq<Entry>, live: set<Target>, file': seq<Entry>, live': set<Target>, e: Entry,
                               inspected: Result<bool, Owned.InspectError>, a: Answers, ran: bool, err: Option<Error>) {
    var t, r := TargetOf(e), FindOwned(file, e);
    var begun := !a.cancelled && Complete(e) && a.locked && a.loaded;
    && live' == (if ran && a.applies then live - ({t} + a.also) else live)
    && (ran <==> Decidable(file, e, inspected, a) && r.Found? && t in live && a.ipFound)
    && (ran ==> inspected == Ok(true))
    && (err.Some? ==> file' == file)
    && (err == Some(OwnershipChanged) <==> begun && r.Changed?)
    && ((err.Some? && err.value.InspectionFailed?) <==> begun && !r.Changed? && inspected.Err?)
    && (err == Some(NotRecorded) <==> Decidable(file, e, inspected, a) && r.Missing? && t in live)
    && (err.None? <==> OwnedWorks(file, live, e, inspected, a))
    && (err.None? ==> t !in live' && (if r.Found? then file' == Without(file, r.i) else r.Missing? && file' == file))
  }

  lemma {:induction false} ChangedStays(s: seq<Entry>, e: Entry, i: nat)
    requires i <= |s| && FindOwned(s[..i], e).Changed?
    ensures FindOwned(s, e).Changed?
    decreases |s| - i
  {
    if i < |s| {
      assert s[..i + 1][..i] == s[..i];
      ChangedStays(s, e, i + 1);
    } else {
      assert s[..i] == s;
    }
  }
}
