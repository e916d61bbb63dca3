/**
  The prompt reader of the guide (cmd/wirepup/prompt.go, prompt_unix.go): one reader owns the
  terminal, callers hand it requests, and the user types at any time. The protocol is a transition
  system over the steps of reader, callers and terminal; a run is any interleaving of them.
 */
module Prompt {
  import opened Bytes
  import opened Wrappers

  const NEWLINE: byte := 10
  const CARRIAGE_RETURN: byte := 13
  const MAX_PROMPT_BYTES := 253
  const CHUNK := 256

  datatype Failure = Cancelled | InputFailed | TooLong

  /** Where the reader is in its loop; a request being discarded for records how much was typed when it was taken. */
  datatype Pc =
    | Top
    | Discarding(id: nat, asked: nat)
    | AwaitStart(id: nat)
    | Reading
    | Rejecting
    | Ended(failure: Failure)

  /** A request whose discard ended when from bytes had been typed. */
  datatype Request = Request(id: nat, asked: nat, from: nat)

  /** The text sent to a request, with the history of its request and where its newline was. */
  datatype Delivery = Delivery(request: Request, to: nat, text: seq<byte>)

  /** Where a caller is in its call of line. */
  datatype Call = Requested | Prompted | Answered(delivery: Delivery) | Refused

  /**
    typed holds every byte ever queued and head counts those read or flushed. Calls are numbered as
    the reader takes their requests; sent lists what went into their line channels, oldest first.
   */
  datatype State = State(
    typed: seq<byte>, head: nat,
    pc: Pc, request: Option<Request>, line: seq<byte>,
    calls: seq<Call>, started: set<nat>, sent: seq<Delivery>)

  const INITIAL := State([], 0, Top, None, [], [], {}, [])

  datatype Step =
    | Type(b: byte)                    // the user
    | Take                             // the reader takes a request a caller offers
    | Drain(n: nat)                    // one read while discarding
    | Flush(ok: bool)                  // the flush that ends a discard, and what the discard reports
    | Show(id: nat)                    // the caller sees ready, prompts and closes start
    | Start                            // the reader sees start
    | NoRequest                        // no caller offers a request
    | Read                             // one byte arrives in time
    | Timeout                          // none does
    | Fail(failure: Failure)           // cancellation, or an input error
    | Receive(id: nat, delivery: Delivery) // the caller receives its line
    | GiveUp(id: nat)                  // the caller returns an error

  /** The line without one trailing carriage return. */
  function Trimmed(line: seq<byte>): seq<byte> {
    if |line| > 0 && line[|line| - 1] == CARRIAGE_RETURN then line[..|line| - 1] else line
  }

  predicate CanFail(pc: Pc, f: Failure) {
    match pc
    case Top => f.Cancelled?
    case AwaitStart(_) => f.Cancelled?
    case Reading => !f.TooLong?
    case _ => false
  }

  predicate Enabled(s: State, step: Step) {
    match step
    case Type(_) => true
    case Take => s.pc.Top?
    case Drain(n) => (s.pc.Discarding? || s.pc.Rejecting?) && n <= CHUNK && s.head + n <= |s.typed|
    case Flush(_) => s.pc.Discarding? || s.pc.Rejecting?
    case Show(id) => s.pc == AwaitStart(id) && id < |s.calls| && s.calls[id].Requested?
    case Start => s.pc.AwaitStart? && s.pc.id in s.started
    case NoRequest => s.pc.Top?
    case Read => s.pc.Reading? && s.head < |s.typed|
    case Timeout => s.pc.Reading?
    case Fail(f) => CanFail(s.pc, f)
    case Receive(id, d) => id < |s.calls| && s.calls[id].Prompted? && d in s.sent && d.request.id == id
    case GiveUp(id) => id < |s.calls| && (s.calls[id].Requested? || s.calls[id].Prompted?)
  }

  /** The reader handles the byte it read. */
  function ByteRead(s: State): State
    requires s.pc.Reading? && s.head < |s.typed|
  {
    var b := s.typed[s.head];
    var next := s.(head := s.head + 1, pc := Top);
    if s.request.None? then next
    else if b == NEWLINE then
      next.(sent := s.sent + [Delivery(s.request.value, s.head, Trimmed(s.line))], request := None, line := [])
    else if |s.line| >= MAX_PROMPT_BYTES then next.(pc := Rejecting)
    else next.(line := s.line + [b])
  }

  /** The end of a discard: what is still queued is flushed whatever the discard reports. */
  function InputFlushed(s: State, ok: bool): State {
    var n := |s.typed|;
    match s.pc
    case Discarding(id, asked) =>
      if ok then s.(head := n, pc := AwaitStart(id), request := Some(Request(id, asked, n)), line := [])
      else s.(head := n, pc := Ended(InputFailed))
    case _ => s.(head := n, pc := Ended(TooLong))
  }

  function After(s: State, step: Step): State
    requires Enabled(s, step)
  {
    match step
    case Type(b) => s.(typed := s.typed + [b])
    case Take => s.(pc := Discarding(|s.calls|, |s.typed|), calls := s.calls + [Requested])
    case Drain(n) => s.(head := s.head + n)
    case Flush(ok) => InputFlushed(s, ok)
    case Show(id) => s.(calls := s.calls[id := Prompted], started := s.started + {id})
    case Start => s.(pc := Reading)
    case NoRequest => s.(pc := Reading)
    case Read => ByteRead(s)
    case Timeout => s.(pc := Top)
    case Fail(f) => s.(pc := Ended(f))
    case Receive(id, d) => s.(calls := s.calls[id := Answered(d)])
    case GiveUp(id) => s.(calls := s.calls[id := Refused])
  }

  /** Where a run leads, if every step is enabled. */
  function Run(s: State, steps: seq<Step>): Option<State>
    decreases |steps|
  {
    if steps == [] then Some(s)
    else if Enabled(s, steps[0]) then Run(After(s, steps[0]), steps[1..])
    else None
  }

  // ---------------------------------------------------------------- the invariant

  /** The end of the first line at or after position i, or the end of the input. */
  function LineEnd(typed: seq<byte>, i: nat): (r: nat)
    requires i <= |typed|
    ensures i <= r <= |typed| && NoNewline(typed, i, r) && (r < |typed| ==> typed[r] == NEWLINE)
    decreases |typed| - i
  {
    if i == |typed| || typed[i] == NEWLINE then i else LineEnd(typed, i + 1)
  }

  predicate NoNewline(typed: seq<byte>, from: nat, to: nat)
    requires to <= |typed|
  {
    forall k :: from <= k < to ==> typed[k] != NEWLINE
  }

  /** The delivery is the line typed from the end of its request's flush, and of bounded length. */
  predicate IsTypedLine(typed: seq<byte>, d: Delivery) {
    && d.request.asked <= d.request.from <= d.to < |typed|
    && typed[d.to] == NEWLINE && NoNewline(typed, d.request.from, d.to)
    && d.to - d.request.from <= MAX_PROMPT_BYTES && d.text == Trimmed(typed[d.request.from..d.to])
  }

  /** Deliveries come from lines typed one after the other, each to a later request. */
  predicate History(typed: seq<byte>, sent: seq<Delivery>) {
    && (forall d :: d in sent ==> IsTypedLine(typed, d))
    && (forall i, j :: 0 <= i < j < |sent| ==> sent[i].to < sent[j].request.from && sent[i].request.id < sent[j].request.id)
  }

  /** Everything delivered was typed before this position, to requests before this one. */
  predicate AllBefore(sent: seq<Delivery>, position: nat, id: nat) {
    forall d :: d in sent ==> d.to < position && d.request.id < id
  }

  /** The reader has collected exactly what was typed since the flush of its request. */
  predicate Collecting(typed: seq<byte>, head: nat, r: Request, line: seq<byte>) {
    && r.asked <= r.from <= head <= |typed|
    && line == typed[r.from..head] && NoNewline(typed, r.from, head) && |line| <= MAX_PROMPT_BYTES
  }

  predicate Listening(s: State) {
    s.request.Some? && (s.pc.Top? || s.pc.AwaitStart? || s.pc.Reading?)
  }

  /** What each caller was told is what was sent to its own request. */
  predicate CallsAnswered(calls: seq<Call>, sent: seq<Delivery>) {
    forall id :: 0 <= id < |calls| && calls[id].Answered? ==> calls[id].delivery in sent && calls[id].delivery.request.id == id
  }

  predicate ReaderInv(s: State) {
    && s.head <= |s.typed|
    && (s.pc.Discarding? ==> s.pc.asked <= |s.typed| && s.pc.id < |s.calls| && AllBefore(s.sent, s.head, s.pc.id))
    && (s.pc.AwaitStart? ==> s.request.Some? && s.request.value.id == s.pc.id)
    && (s.request.Some? ==> s.request.value.id < |s.calls|)
    && (Listening(s) ==>
          var r := s.request.value;
          Collecting(s.typed, s.head, r, s.line) && AllBefore(s.sent, r.from, r.id))
  }

  predicate Inv(s: State) {
    && ReaderInv(s)
    && History(s.typed, s.sent)
    && AllBefore(s.sent, s.head, |s.calls|)
    && CallsAnswered(s.calls, s.sent)
  }

  lemma TypedLineStays(typed: seq<byte>, b: byte, d: Delivery)
    requires IsTypedLine(typed, d)
    ensures IsTypedLine(typed + [b], d)
  {
    assert (typed + [b])[d.request.from..d.to] == typed[d.request.from..d.to];
  }

  lemma HistoryGrows(typed: seq<byte>, b: byte, sent: seq<Delivery>)
    requires History(typed, sent)
    ensures History(typed + [b], sent)
  {
    forall d | d in sent ensures IsTypedLine(typed + [b], d) {
      TypedLineStays(typed, b, d);
    }
  }

  lemma DeliveryExtends(typed: seq<byte>, sent: seq<Delivery>, d: Delivery)
    requires History(typed, sent) && IsTypedLine(typed, d) && AllBefore(sent, d.request.from, d.request.id)
    ensures History(typed, sent + [d])
  {
  }

  lemma TypeKeepsInv(s: State, b: byte)
    requires Inv(s)
    ensures Inv(After(s, Type(b)))
  {
    HistoryGrows(s.typed, b, s.sent);
    if Listening(s) {
      var from := s.request.value.from;
      assert (s.typed + [b])[from..s.head] == s.typed[from..s.head];
    }
  }

  lemma ReadKeepsInv(s: State)
    requires Inv(s) && s.pc.Reading? && s.head < |s.typed|
    ensures Inv(ByteRead(s))
  {
    if s.request.Some? {
      var r := s.request.value;
      assert s.typed[r.from..s.head + 1] == s.typed[r.from..s.head] + [s.typed[s.head]];
      if s.typed[s.head] == NEWLINE {
        DeliveryExtends(s.typed, s.sent, Delivery(r, s.head, Trimmed(s.line)));
      }
    }
  }

  /** The steps of the reader alone, other than reading a byte. */
  predicate IsReaderStep(step: Step) {
    step.Take? || step.Drain? || step.Flush? || step.Start? || step.NoRequest? || step.Timeout? || step.Fail?
  }

  lemma ReaderKeepsInv(s: State, step: Step)
    requires Inv(s) && Enabled(s, step) && IsReaderStep(step)
    ensures Inv(After(s, step))
  {
  }

  lemma CallerKeepsInv(s: State, step: Step)
    requires Inv(s) && Enabled(s, step) && (step.Show? || step.Receive? || step.GiveUp?)
    ensures Inv(After(s, step))
  {
  }

  /** Every step of reader, caller or user keeps the invariant. */
  lemma StepKeepsInv(s: State, step: Step)
    requires Inv(s) && Enabled(s, step)
    ensures Inv(After(s, step))
  {
    if step.Type? {
      TypeKeepsInv(s, step.b);
    } else if step.Read? {
      ReadKeepsInv(s);
    } else if IsReaderStep(step) {
      ReaderKeepsInv(s, step);
    } else {
      CallerKeepsInv(s, step);
    }
  }

  lemma {:induction false} RunKeepsInv(s: State, steps: seq<Step>)
    requires Inv(s) && Run(s, steps).Some?
    ensures Inv(Run(s, steps).value)
    decreases |steps|
  {
    if steps == [] {
    } else {
      StepKeepsInv(s, steps[0]);
      RunKeepsInv(After(s, steps[0]), steps[1..]);
    }
  }

  // ---------------------------------------------------------------- type-ahead safety

  /** The answer is the first line typed from some position at or after base. */
  ghost predicate AnswersFrom(typed: seq<byte>, base: nat, answer: seq<byte>) {
    exists from: nat :: base <= from <= |typed| && IsFirstLine(typed, from, answer)
  }

  predicate IsFirstLine(typed: seq<byte>, from: nat, answer: seq<byte>)
    requires from <= |typed|
  {
    var end := LineEnd(typed, from);
    end < |typed| && end - from <= MAX_PROMPT_BYTES && answer == Trimmed(typed[from..end])
  }

  lemma TypedLineIsFirst(typed: seq<byte>, d: Delivery)
    requires IsTypedLine(typed, d)
    ensures IsFirstLine(typed, d.request.from, d.text) && LineEnd(typed, d.request.from) == d.to
    ensures |d.text| <= MAX_PROMPT_BYTES && NEWLINE !in d.text
  {
  }

  /** Whatever is requested from here on has its flush after everything typed so far. */
  predicate LaterRequests(s: State, calls: nat, base: nat) {
    && calls <= |s.calls| && base <= |s.typed|
    && (s.pc.Discarding? && s.pc.id >= calls ==> s.pc.asked >= base)
    && (s.request.Some? && s.request.value.id >= calls ==> s.request.value.asked >= base)
    && (forall d :: d in s.sent && d.request.id >= calls ==> d.request.asked >= base)
  }

  lemma LaterReaderStep(s: State, step: Step, calls: nat, base: nat)
    requires Enabled(s, step) && LaterRequests(s, calls, base)
    ensures LaterRequests(After(s, step), calls, base)
  {
  }

  lemma {:induction false} LaterRun(s: State, steps: seq<Step>, calls: nat, base: nat)
    requires Run(s, steps).Some? && LaterRequests(s, calls, base)
    ensures LaterRequests(Run(s, steps).value, calls, base)
    decreases |steps|
  {
    if steps == [] {
    } else {
      LaterReaderStep(s, steps[0], calls, base);
      LaterRun(After(s, steps[0]), steps[1..], calls, base);
    }
  }

  /**
    Type-ahead safety: an answer is the first line typed from some position on that is not before
    anything typed when its request was taken, without one trailing carriage return.
   */
  lemma TypeAheadNeverAnswers(before: seq<Step>, after: seq<Step>, id: nat)
    requires Run(INITIAL, before).Some? && Run(Run(INITIAL, before).value, after).Some?
    requires var s, t := Run(INITIAL, before).value, Run(Run(INITIAL, before).value, after).value;
             |s.calls| <= id < |t.calls| && t.calls[id].Answered?
    ensures var s, t := Run(INITIAL, before).value, Run(Run(INITIAL, before).value, after).value;
            var answer := t.calls[id].delivery.text;
            |answer| <= MAX_PROMPT_BYTES && NEWLINE !in answer && AnswersFrom(t.typed, |s.typed|, answer)
  {
    var s := Run(INITIAL, before).value;
    var t := Run(s, after).value;
    RunKeepsInv(INITIAL, before);
    RunKeepsInv(s, after);
    assert forall d :: d in s.sent ==> d.request.id < |s.calls|;
    LaterRun(s, after, |s.calls|, |s.typed|);
    var d := t.calls[id].delivery;
    TypedLineIsFirst(t.typed, d);
    assert IsFirstLine(t.typed, d.request.from, d.text);
  }

  /** The flush for the request was at this position, and it is not being discarded any more. */
  predicate FlushedAt(s: State, id: nat, position: nat) {
    && id < |s.calls| && (s.pc.Discarding? ==> s.pc.id != id)
    && (s.request.Some? && s.request.value.id == id ==> s.request.value.from == position)
    && (forall d :: d in s.sent && d.request.id == id ==> d.request.from == position)
  }

  lemma FlushedAtStays(s: State, step: Step, id: nat, position: nat)
    requires Enabled(s, step) && FlushedAt(s, id, position)
    ensures FlushedAt(After(s, step), id, position)
  {
  }

  lemma {:induction false} FlushedAtRun(s: State, steps: seq<Step>, id: nat, position: nat)
    requires Run(s, steps).Some? && FlushedAt(s, id, position)
    ensures FlushedAt(Run(s, steps).value, id, position)
    decreases |steps|
  {
    if steps == [] {
    } else {
      FlushedAtStays(s, steps[0], id, position);
      FlushedAtRun(After(s, steps[0]), steps[1..], id, position);
    }
  }

  /** An answer is exactly the first line typed after the flush that ended the discard for its request. */
  lemma AnswerFollowsFlush(before: seq<Step>, after: seq<Step>, id: nat)
    requires Run(INITIAL, before).Some? && Run(INITIAL, before).value.pc.Discarding? && Run(INITIAL, before).value.pc.id == id
    requires var s := After(Run(INITIAL, before).value, Flush(true));
             Run(s, after).Some? && id < |Run(s, after).value.calls| && Run(s, after).value.calls[id].Answered?
    ensures var s := Run(INITIAL, before).value;
            var t := Run(After(s, Flush(true)), after).value;
            |s.typed| <= |t.typed| && IsFirstLine(t.typed, |s.typed|, t.calls[id].delivery.text)
  {
    RunKeepsInv(INITIAL, before);
    var s := Run(INITIAL, before).value;
    var s' := After(s, Flush(true));
    StepKeepsInv(s, Flush(true));
    FlushedAtRun(s', after, id, |s.typed|);
    RunKeepsInv(s', after);
    var t := Run(s', after).value;
    TypedLineIsFirst(t.typed, t.calls[id].delivery);
  }

  /** Of two deliveries, the line for the earlier request ended before the flush for the later. */
  lemma EarlierEndsFirst(typed: seq<byte>, sent: seq<Delivery>, d: Delivery, e: Delivery)
    requires History(typed, sent) && d in sent && e in sent && d.request.id < e.request.id
    ensures d.to < e.request.from
  {
    var m: nat :| m < |sent| && sent[m] == d;
    var n: nat :| n < |sent| && sent[n] == e;
  }

  lemma AnsweredApart(s: State, i: nat, j: nat)
    requires Inv(s) && i < j < |s.calls| && s.calls[i].Answered? && s.calls[j].Answered?
    ensures s.calls[i].delivery.to < s.calls[j].delivery.request.from
  {
    EarlierEndsFirst(s.typed, s.sent, s.calls[i].delivery, s.calls[j].delivery);
  }

  /** No byte is part of two answers: of two answered calls, one line ended before the flush for the other. */
  lemma NoByteAnswersTwice(steps: seq<Step>, i: nat, j: nat)
    requires Run(INITIAL, steps).Some?
    requires var s := Run(INITIAL, steps).value;
             i < j < |s.calls| && s.calls[i].Answered? && s.calls[j].Answered?
    ensures var s := Run(INITIAL, steps).value;
            s.calls[i].delivery.to < s.calls[j].delivery.request.from
  {
    RunKeepsInv(INITIAL, steps);
    AnsweredApart(Run(INITIAL, steps).value, i, j);
  }

  /** Once the reader rejects or has ended it delivers nothing any more. */
  lemma {:induction false} SilentAfterEnd(s: State, steps: seq<Step>)
    requires s.pc.Rejecting? || s.pc.Ended?
    requires Run(s, steps).Some?
    ensures Run(s, steps).value.sent == s.sent
    ensures Run(s, steps).value.pc.Rejecting? || Run(s, steps).value.pc.Ended?
    decreases |steps|
  {
    if steps == [] {
    } else {
      var t := After(s, steps[0]);
      assert t.sent == s.sent && (t.pc.Rejecting? || t.pc.Ended?);
      SilentAfterEnd(t, steps[1..]);
    }
  }

  // ---------------------------------------------------------------- exactly the short lines are delivered

  /** n turns of the reader in which no request arrives and a byte does. */
  function Turns(n: nat): seq<Step> {
    if n == 0 then [] else [NoRequest, Read] + Turns(n - 1)
  }

  function Turn(s: State): State
    requires s.pc.Top? && s.head < |s.typed|
  {
    ByteRead(s.(pc := Reading))
  }

  lemma OneTurn(s: State, n: nat)
    requires s.pc.Top? && s.head < |s.typed| && n > 0
    ensures Run(s, Turns(n)) == Run(Turn(s), Turns(n - 1))
  {
    var r := s.(pc := Reading);
    assert Turns(n)[1..] == [Read] + Turns(n - 1);
    assert ([Read] + Turns(n - 1))[1..] == Turns(n - 1);
    assert Run(s, Turns(n)) == Run(r, [Read] + Turns(n - 1));
    assert Run(r, [Read] + Turns(n - 1)) == Run(Turn(s), Turns(n - 1));
  }

  /** A reader waiting for the line of request r. */
  predicate Waiting(s: State, r: Request) {
    s.pc.Top? && s.request == Some(r) && Inv(s)
  }

  lemma TurnKeepsWaiting(s: State, r: Request)
    requires Waiting(s, r) && s.head < |s.typed| && s.typed[s.head] != NEWLINE && |s.line| < MAX_PROMPT_BYTES
    ensures Waiting(Turn(s), r) && Turn(s).typed == s.typed && Turn(s).head == s.head + 1 && Turn(s).sent == s.sent
  {
    StepKeepsInv(s, NoRequest);
    StepKeepsInv(After(s, NoRequest), Read);
  }

  /** The reader delivers the line once it has read it. */
  predicate DeliversLine(s: State, r: Request)
    requires r.from <= |s.typed|
  {
    var end := LineEnd(s.typed, r.from);
    && s.head <= end
    && Run(s, Turns(end - s.head + 1)).Some?
    && Run(s, Turns(end - s.head + 1)).value.sent == s.sent + [Delivery(r, end, Trimmed(s.typed[r.from..end]))]
  }

  lemma LineDeliveredNow(s: State, r: Request)
    requires Waiting(s, r) && s.head == LineEnd(s.typed, r.from) < |s.typed|
    ensures DeliversLine(s, r)
  {
    OneTurn(s, 1);
  }

  /** Before its end, a byte of a short line is collected. */
  lemma TurnCollects(s: State, r: Request)
    requires Waiting(s, r) && s.head < LineEnd(s.typed, r.from) && LineEnd(s.typed, r.from) - r.from <= MAX_PROMPT_BYTES
    requires LineEnd(s.typed, r.from) < |s.typed|
    ensures Waiting(Turn(s), r) && Turn(s).typed == s.typed && Turn(s).head == s.head + 1 && Turn(s).sent == s.sent
  {
    assert |s.line| == s.head - r.from;
    TurnKeepsWaiting(s, r);
  }

  lemma LineDeliveredNext(s: State, r: Request)
    requires s.pc.Top? && r.from <= |s.typed| && s.head < LineEnd(s.typed, r.from) < |s.typed|
    requires Turn(s).typed == s.typed && Turn(s).head == s.head + 1 && Turn(s).sent == s.sent
    ensures DeliversLine(Turn(s), r) ==> DeliversLine(s, r)
  {
    OneTurn(s, LineEnd(s.typed, r.from) - s.head + 1);
  }

  /** The line typed since the flush is delivered whole once the reader has read it, if it is short enough. */
  lemma {:induction false} ShortLineDelivered(s: State, r: Request)
    requires Waiting(s, r)
    requires LineEnd(s.typed, r.from) < |s.typed| && LineEnd(s.typed, r.from) - r.from <= MAX_PROMPT_BYTES
    ensures DeliversLine(s, r)
    decreases |s.typed| - s.head
  {
    if s.head < LineEnd(s.typed, r.from) {
      TurnCollects(s, r);
      LineDeliveredNext(s, r);
      ShortLineDelivered(Turn(s), r);
    } else {
      LineDeliveredNow(s, r);
    }
  }

  /** A longer line ends the interaction at its 254th byte with nothing delivered. */
  lemma {:induction false} LongLineRejected(s: State, r: Request)
    requires Waiting(s, r)
    requires LineEnd(s.typed, r.from) - r.from > MAX_PROMPT_BYTES
    ensures var stop := r.from + MAX_PROMPT_BYTES;
            && s.head <= stop
            && Run(s, Turns(stop - s.head + 1)).Some?
            && Run(s, Turns(stop - s.head + 1)).value.sent == s.sent
            && Run(s, Turns(stop - s.head + 1)).value.pc.Rejecting?
    decreases |s.typed| - s.head
  {
    var stop := r.from + MAX_PROMPT_BYTES;
    OneTurn(s, stop - s.head + 1);
    if s.head < stop {
      TurnKeepsWaiting(s, r);
      LongLineRejected(Turn(s), r);
    }
  }

  // ---------------------------------------------------------------- the reader loop

  lemma {:induction false} RunConcat(s: State, xs: seq<Step>, ys: seq<Step>)
    requires Run(s, xs).Some?
    ensures Run(s, xs + ys) == Run(Run(s, xs).value, ys)
    decreases |xs|
  {
    if xs == [] {
      assert xs + ys == ys;
    } else {
      assert (xs + ys)[1..] == xs[1..] + ys;
      RunConcat(After(s, xs[0]), xs[1..], ys);
    }
  }

  /** Some run leads from s to t. */
  ghost predicate Reaches(s: State, t: State) {
    exists steps :: Run(s, steps) == Some(t)
  }

  lemma ReachesHere(s: State)
    ensures Reaches(s, s)
  {
    assert Run(s, []) == Some(s);
  }

  lemma ReachesNext(s: State, t: State, step: Step)
    requires Reaches(s, t) && Enabled(t, step)
    ensures Reaches(s, After(t, step))
  {
    var steps :| Run(s, steps) == Some(t);
    RunConcat(s, steps, [step]);
    assert Run(t, [step]) == Run(After(t, step), []);
    assert Run(s, steps + [step]) == Some(After(t, step));
  }

  /** What one poll and read of a discard meets: an interruption, bytes, nothing queued, or any error or end of input. */
  datatype Poll = Interrupted | Queued(n: nat) | Quiet | Broken

  /** Whether a discard of this many queued bytes sees the queue empty before any error. */
  predicate Drained(polls: seq<Poll>, queued: nat)
    decreases |polls|
  {
    if polls == [] then false
    else
      match polls[0]
      case Interrupted => Drained(polls[1..], queued)
      case Quiet => true
      case Broken => false
      case Queued(n) => var count := OneRead(n, queued); count > 0 && Drained(polls[1..], queued - count)
  }

  /** How much one read takes of what is queued; a read of nothing is the end of input. */
  function OneRead(n: nat, queued: nat): (r: nat)
    ensures r <= n && r <= queued && r <= CHUNK
  {
    if n <= CHUNK && n <= queued then n else if queued < CHUNK then queued else CHUNK
  }

  /** What waiting for one byte gives. */
  datatype Byte = Arrived | TimedOut | Broke

  /** What one turn of the loop meets; typed bytes arrive before the discard and before the byte. */
  datatype Meeting = Meeting(
    cancelled: bool, offered: bool, before: seq<byte>, polls: seq<Poll>, shown: bool, during: seq<byte>, byte: Byte,
    last: seq<Poll>)

  // ---------------------------------------------------------------- what one turn makes of what it meets

  /** What the reader holds and the terminal has: all that is not the caller's. */
  datatype View = View(typed: seq<byte>, head: nat, request: Option<Request>, line: seq<byte>, sent: seq<Delivery>, err: Option<Failure>, taken: nat)

  function ByteTaken(v: View): View
    requires v.head < |v.typed|
  {
    var b, next := v.typed[v.head], v.(head := v.head + 1);
    if v.request.None? then next
    else if b == NEWLINE then
      next.(sent := v.sent + [Delivery(v.request.value, v.head, Trimmed(v.line))], request := None, line := [])
    else if |v.line| >= MAX_PROMPT_BYTES then next.(head := |v.typed|, err := Some(TooLong))
    else next.(line := v.line + [b])
  }

  function Waited(v: View, m: Meeting): View
    requires v.head <= |v.typed|
  {
    var next := v.(typed := v.typed + m.during);
    if m.byte.Broke? then next.(err := Some(InputFailed))
    else if m.byte.TimedOut? || next.head == |next.typed| then next
    else ByteTaken(next)
  }

  function RequestTaken(v: View, before: seq<byte>, polls: seq<Poll>): View
    requires v.head <= |v.typed|
  {
    var all := v.typed + before;
    var next := v.(typed := all, head := |all|, taken := v.taken + 1);
    if Drained(polls, |all| - v.head) then next.(request := Some(Request(v.taken, |v.typed|, |all|)), line := [])
    else next.(err := Some(InputFailed))
  }

  function Turned(v: View, m: Meeting): View
    requires v.head <= |v.typed|
  {
    if m.cancelled then v.(err := Some(Cancelled))
    else if !m.offered then Waited(v, m)
    else
      var next := RequestTaken(v, m.before, m.polls);
      if next.err.Some? then next
      else if !m.shown then next.(err := Some(Cancelled))
      else Waited(next, m)
  }

  /** A turn keeps what was typed and delivered. */
  lemma TurnGrows(v: View, m: Meeting)
    requires v.head <= |v.typed|
    ensures v.typed <= Turned(v, m).typed && v.sent <= Turned(v, m).sent && Turned(v, m).head <= |Turned(v, m).typed|
  {
  }

  /** Turns up to the first error. */
  function TurnedAll(v: View, ms: seq<Meeting>): View
    requires v.head <= |v.typed|
    decreases |ms|
  {
    if ms == [] || v.err.Some? then v else TurnedAll(Turned(v, ms[0]), ms[1..])
  }

  /** A turn in which nothing new is typed or offered and one queued byte arrives. */
  const NEXT_BYTE := Meeting(false, false, [], [], false, [], Arrived, [])

  function NextBytes(n: nat): seq<Meeting> {
    if n == 0 then [] else [NEXT_BYTE] + NextBytes(n - 1)
  }

  lemma NextByteTaken(v: View, n: nat)
    requires v.head < |v.typed| && v.err.None? && n > 0
    ensures TurnedAll(v, NextBytes(n)) == TurnedAll(ByteTaken(v), NextBytes(n - 1))
  {
    assert v.typed + [] == v.typed;
    assert NextBytes(n)[1..] == NextBytes(n - 1);
  }

  /** The reader is in the middle of a line it will deliver: its rest is queued, with the newline at the end. */
  predicate Finishing(v: View, rest: seq<byte>) {
    && v.request.Some? && v.err.None? && v.head + |rest| + 1 == |v.typed|
    && v.typed[v.head..] == rest + [NEWLINE] && NEWLINE !in rest && |v.line| + |rest| <= MAX_PROMPT_BYTES
  }

  /** One byte of the line is collected. */
  lemma ByteCollected(v: View, rest: seq<byte>)
    requires Finishing(v, rest) && rest != []
    ensures var next := ByteTaken(v);
            && Finishing(next, rest[1..]) && next.line + rest[1..] == v.line + rest
            && next.typed == v.typed && next.request == v.request && next.sent == v.sent && next.taken == v.taken
  {
    assert v.typed[v.head] == v.typed[v.head..][0] == rest[0];
    var next := ByteTaken(v);
    assert next.typed[next.head..] == v.typed[v.head..][1..] == rest[1..] + [NEWLINE];
  }

  lemma LastByteTaken(v: View)
    requires Finishing(v, [])
    ensures var next := ByteTaken(v);
            && next.err.None? && next.request.None? && next.typed == v.typed && next.head == |v.typed| && next.taken == v.taken
            && next.sent == v.sent + [Delivery(v.request.value, |v.typed| - 1, Trimmed(v.line))]
  {
    assert v.typed[v.head] == v.typed[v.head..][0] == NEWLINE;
  }

  /** Reading on, the reader delivers the line. */
  lemma {:induction false} CollectedIsSent(v: View, rest: seq<byte>)
    requires Finishing(v, rest)
    ensures var r := TurnedAll(v, NextBytes(|rest| + 1));
            && r.err.None? && r.request.None? && r.typed == v.typed && r.head == |v.typed| && r.taken == v.taken
            && r.sent == v.sent + [Delivery(v.request.value, |v.typed| - 1, Trimmed(v.line + rest))]
    decreases |rest|
  {
    NextByteTaken(v, |rest| + 1);
    if rest == [] {
      LastByteTaken(v);
      assert v.line + rest == v.line;
    } else {
      ByteCollected(v, rest);
      CollectedIsSent(ByteTaken(v), rest[1..]);
    }
  }

  /** The reader right after a request was taken, its prompt shown and its line typed. */
  function Asked(v: View, m: Meeting): View {
    var flushed := |v.typed| + |m.before|;
    View(v.typed + m.before + m.during, flushed, Some(Request(v.taken, |v.typed|, flushed)), [], v.sent, None, v.taken + 1)
  }

  /** The turn that takes a request and reads the first byte typed for it. */
  lemma OfferedTurn(v: View, m: Meeting)
    requires v.head <= |v.typed| && v.err.None? && !m.cancelled && m.offered && m.shown && m.byte.Arrived? && m.during != []
    requires Drained(m.polls, |v.typed| + |m.before| - v.head)
    ensures Turned(v, m) == ByteTaken(Asked(v, m))
  {
  }

  /** The reader delivers the line it has been asked for. */
  lemma AskedIsAnswered(v: View, line: seq<byte>)
    requires Finishing(v, line) && v.line == []
    ensures var r := TurnedAll(ByteTaken(v), NextBytes(|line|));
            && r.err.None? && r.taken == v.taken && r.typed == v.typed && r.head == |r.typed|
            && r.sent == v.sent + [Delivery(v.request.value, |v.typed| - 1, Trimmed(line))]
  {
    NextByteTaken(v, |line| + 1);
    assert [] + line == line;
    CollectedIsSent(v, line);
  }

  lemma AskedFinishes(v: View, m: Meeting, line: seq<byte>)
    requires m.during == line + [NEWLINE] && NEWLINE !in line && |line| <= MAX_PROMPT_BYTES
    ensures Finishing(Asked(v, m), line)
  {
    var here := Asked(v, m);
    assert here.typed[here.head..] == m.during;
  }

  /**
    An offered request is taken and answered: if its discard succeeds, the prompt is shown and a line of
    at most 253 bytes is typed and read, the line is delivered for it, whatever was queued or collected before.
   */
  lemma OfferedRequestIsAnswered(v: View, m: Meeting, line: seq<byte>)
    requires v.head <= |v.typed| && v.err.None? && !m.cancelled && m.offered && m.shown && m.byte.Arrived?
    requires Drained(m.polls, |v.typed| + |m.before| - v.head)
    requires m.during == line + [NEWLINE] && NEWLINE !in line && |line| <= MAX_PROMPT_BYTES
    ensures var next := Turned(v, m);
            var r := TurnedAll(next, NextBytes(|line|));
            var flushed := |v.typed| + |m.before|;
            && r.err.None? && r.taken == v.taken + 1 && r.head == |r.typed| == flushed + |line| + 1
            && r.sent == v.sent + [Delivery(Request(v.taken, |v.typed|, flushed), flushed + |line|, Trimmed(line))]
  {
    OfferedTurn(v, m);
    AskedFinishes(v, m, line);
    AskedIsAnswered(Asked(v, m), line);
  }

  /** The reader and the terminal it owns, beside the protocol state they are part of. */
  class PromptInput {
    var typed: seq<byte>
    var head: nat
    var request: Option<Request>
    var line: seq<byte>
    var sent: seq<Delivery>
    var err: Option<Failure>
    var taken: nat
    ghost var world: State
    ghost var origin: State

    ghost predicate Agrees()
      reads this
    {
      && Inv(world) && Reaches(origin, world)
      && world.typed == typed && world.head == head && world.request == request && world.line == line && world.sent == sent
      && |world.calls| == taken
    }

    ghost function Seen(): View
      reads this
    {
      View(typed, head, request, line, sent, err, taken)
    }

    /** Between two turns the reader is at the top of its loop or has ended with its error. */
    ghost predicate Valid()
      reads this
    {
      Agrees() && world.pc == if err.None? then Top else Ended(err.value)
    }

    constructor ()
      ensures Valid() && world == origin == INITIAL && err.None? && typed == [] && sent == []
    {
      typed, head, request, line, sent, err, taken := [], 0, None, [], [], None, 0;
      world, origin := INITIAL, INITIAL;
      ReachesHere(INITIAL);
    }

    ghost method Follow(step: Step)
      requires Inv(world) && Reaches(origin, world) && Enabled(world, step)
      modifies `world
      ensures Inv(world) && Reaches(origin, world) && world == After(old(world), step)
    {
      StepKeepsInv(world, step);
      ReachesNext(origin, world, step);
      world := After(world, step);
    }

    method Arrive(bytes: seq<byte>)
      requires Agrees()
      modifies `typed, `world
      ensures Agrees() && typed == old(typed) + bytes && world == old(world).(typed := typed)
    {
      for i := 0 to |bytes|
        invariant Agrees() && typed == old(typed) + bytes[..i] && world == old(world).(typed := typed)
      {
        Follow(Type(bytes[i]));
        typed := typed + [bytes[i]];
        assert bytes[..i + 1] == bytes[..i] + [bytes[i]];
      }
    }

    /** Consumes what is queued and flushes the rest, whatever it reports. */
    method Discard(polls: seq<Poll>) returns (ok: bool)
      requires Agrees() && (world.pc.Discarding? || world.pc.Rejecting?)
      modifies `head, `world
      ensures head == |typed|
      ensures ok == Drained(polls, |typed| - old(head))
      ensures Inv(world) && Reaches(origin, world)
      ensures world == old(world).(head := world.head)
    {
      ok := false;
      for i := 0 to |polls|
        invariant Agrees() && world == old(world).(head := head) && !ok
        invariant Drained(polls, |typed| - old(head)) == Drained(polls[i..], |typed| - head)
      {
        match polls[i]
        case Interrupted =>
        case Quiet => ok := true; break;
        case Broken => break;
        case Queued(n) =>
          var count := OneRead(n, |typed| - head);
          if count == 0 {
            break;
          }
          Follow(Drain(count));
          head := head + count;
      }
      head := |typed|;
    }
  
    /** Takes a request: nothing queued before the flush survives it. */
    method TakeRequest(before: seq<byte>, polls: seq<Poll>) returns (ok: bool)
      requires Valid() && err.None?
      modifies this
      ensures Agrees() && origin == old(origin) && typed == old(typed) + before && sent == old(sent)
      ensures head == |typed| && ok == Drained(polls, |typed| - old(head))
      ensures if ok then err.None? && line == [] && request == Some(Request(old(taken), |old(typed)|, head)) else err == Some(InputFailed)
      ensures world.pc == if ok then AwaitStart(old(taken)) else Ended(InputFailed)
      ensures ok ==> taken == old(taken) + 1 && world.calls[old(taken)].Requested?
      ensures Seen() == RequestTaken(old(Seen()), before, polls)
    {
      var id, asked := taken, |typed|;
      Follow(Take);
      taken := taken + 1;
      Arrive(before);
      ok := Prepare(id, asked, polls);
    }

    /** Discards what is queued for the request just taken. */
    method Prepare(id: nat, asked: nat, polls: seq<Poll>) returns (ok: bool)
      requires Agrees() && err.None? && world.pc == Discarding(id, asked)
      modifies `head, `request, `line, `err, `world
      ensures Agrees() && head == |typed| && ok == Drained(polls, |typed| - old(head))
      ensures if ok then err.None? && line == [] && request == Some(Request(id, asked, head))
              else err == Some(InputFailed) && line == old(line) && request == old(request)
      ensures world.pc == if ok then AwaitStart(id) else Ended(InputFailed)
      ensures world.calls == old(world.calls)
    {
      ok := Discard(polls);
      Follow(Flush(ok));
      if ok {
        request, line := Some(Request(id, asked, |typed|)), [];
      } else {
        err := Some(InputFailed);
      }
    }

    /** Waits until the caller has shown its prompt, or is cancelled. */
    method WaitForStart(shown: bool)
      requires Agrees() && err.None? && world.pc.AwaitStart? && world.pc.id < taken && world.calls[world.pc.id].Requested?
      modifies `err, `world
      ensures Agrees()
      ensures if shown then err.None? && world.pc.Reading? else err == Some(Cancelled) && world.pc == Ended(Cancelled)
      ensures Seen() == if shown then old(Seen()) else old(Seen()).(err := Some(Cancelled))
    {
      if shown {
        Follow(Show(world.pc.id));
        Follow(Start);
      } else {
        Follow(Fail(Cancelled));
        err := Some(Cancelled);
      }
    }

    /** Handles the byte that arrived for the current request, if any. */
    method TakeByte(last: seq<Poll>)
      requires Agrees() && err.None? && world.pc.Reading? && head < |typed|
      modifies this
      ensures Valid() && origin == old(origin) && typed == old(typed)
      ensures sent == if old(request).Some? && typed[old(head)] == NEWLINE
                      then old(sent) + [Delivery(old(request).value, old(head), Trimmed(old(line)))] else old(sent)
      ensures err.Some? <==> old(request).Some? && typed[old(head)] != NEWLINE && |old(line)| >= MAX_PROMPT_BYTES
      ensures err.Some? ==> err == Some(TooLong) && head == |typed|
      ensures Seen() == ByteTaken(old(Seen()))
    {
      var b := typed[head];
      Follow(Read);
      head := head + 1;
      if request.None? {
        return;
      }
      if b == NEWLINE {
        sent := sent + [Delivery(request.value, head - 1, Trimmed(line))];
        request, line := None, [];
      } else if |line| >= MAX_PROMPT_BYTES {
        Reject(last);
      } else {
        line := line + [b];
      }
    }

    /** Discards the rest of an overlong line and ends. */
    method Reject(last: seq<Poll>)
      requires Agrees() && err.None? && world.pc.Rejecting?
      modifies `head, `err, `world
      ensures Valid() && Seen() == old(Seen()).(err := Some(TooLong), head := |typed|)
    {
      var ok := Discard(last);
      Follow(Flush(ok));
      err := Some(TooLong);
    }

    /** Waits for one byte and handles it. */
    method WaitForByte(m: Meeting)
      requires Agrees() && err.None? && world.pc.Reading?
      modifies this
      ensures Valid() && origin == old(origin) && Seen() == Waited(old(Seen()), m)
    {
      Arrive(m.during);
      if m.byte.Broke? {
        Follow(Fail(InputFailed));
        err := Some(InputFailed);
      } else if m.byte.TimedOut? || head == |typed| {
        Follow(Timeout);
      } else {
        TakeByte(m.last);
      }
    }

    /** One turn of the loop. */
    method OneTurn(m: Meeting)
      requires Valid() && err.None?
      modifies this
      ensures Valid() && origin == old(origin) && Seen() == Turned(old(Seen()), m)
    {
      if m.cancelled {
        Follow(Fail(Cancelled));
        err := Some(Cancelled);
        return;
      }
      if m.offered {
        var ok := TakeRequest(m.before, m.polls);
        if !ok {
          return;
        }
        WaitForStart(m.shown);
        if err.Some? {
          return;
        }
      } else {
        Follow(NoRequest);
      }
      WaitForByte(m);
    }

    /**
      The whole loop is a run of the protocol, does turn by turn what each turn meets, up to the first
      error, and all it delivers are lines typed after the flush for their request.
     */
    method Loop(meetings: seq<Meeting>)
      requires Valid() && err.None?
      modifies this
      ensures Valid() && origin == old(origin) && Reaches(origin, world)
      ensures Seen() == TurnedAll(old(Seen()), meetings)
      ensures old(typed) <= typed && old(sent) <= sent && History(typed, sent)
    {
      assert meetings[0..] == meetings;
      for i := 0 to |meetings|
        invariant Valid() && origin == old(origin) && old(typed) <= typed && old(sent) <= sent
        invariant TurnedAll(Seen(), meetings[i..]) == TurnedAll(old(Seen()), meetings)
      {
        if err.Some? {
          break;
        }
        assert meetings[i..][1..] == meetings[i + 1..];
        TurnGrows(Seen(), meetings[i]);
        OneTurn(meetings[i]);
      }
    }
  }
}
