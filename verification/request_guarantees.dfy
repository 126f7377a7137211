/**
 What holds of a request over every schedule: the order of its events, where the bytes of its body
 go, and how its promise and its cancellation token end.
 */
module RequestGuarantees {
  import opened Wrappers
  import opened Sequences
  import opened RequestEvents
  import opened BodyStreams
  import opened BodyEvents
  import opened RequestLifecycle

  /** No reader can reach the stream: it is not stored, so every attempt to read it fails. */
  predicate Unreachable(b: Body) {
    && !b.cached && b.progress.None? && b.holder.None?
    && b.lockOrder == [] && b.taken == []
    && forall r :: 0 <= r < |b.readers| ==> b.readers[r] == Returned(NotFound)
  }

  predicate PhaseIs(cfg: Config, b: Body, phase: Phase) {
    if cfg.hasSink then PhaseAfter(b.events) == phase else b.events == []
  }

  predicate Streaming(task: RequestTask) {
    (task.Settling? || task.Settled?) && task.outcome.StreamedBody?
  }

  predicate TaskInv(cfg: Config, s: State) {
    match s.task
    case NotPolled => Unreachable(s.body) && PhaseIs(cfg, s.body, Fresh)
    case AwaitingSend => Unreachable(s.body) && PhaseIs(cfg, s.body, AwaitingHeaders)
    case AwaitingBytes => Unreachable(s.body) && PhaseIs(cfg, s.body, HeadersSeen)
    case Settling(outcome) => OutcomeInv(cfg, s.body, outcome)
    case Settled(outcome) => OutcomeInv(cfg, s.body, outcome)
  }

  predicate OutcomeInv(cfg: Config, b: Body, outcome: RequestOutcome) {
    match outcome
    case RequestFailed => Unreachable(b) && PhaseIs(cfg, b, Failed)
    case NoBody => Unreachable(b) && PhaseIs(cfg, b, Finished)
    case InlineBody(bytes) => Unreachable(b) && PhaseIs(cfg, b, Finished) && bytes == BytesOf(cfg.body)
    case StreamedBody => EventsTrack(b) && (!cfg.hasSink ==> b.events == [] && b.progress.None?)
  }

  predicate TokenInv(cfg: Config, s: State) {
    && (s.task.Settled? ==> !s.registered)
    && (!cfg.cancellable ==> !s.registered && !s.cancelled)
    && !(s.registered && s.cancelled)
  }

  predicate Inv(cfg: Config, s: State) {
    && BodyInv(s.body, cfg.body)
    && HolderPolls(s.body)
    && CompleteReports(s.body.events, |BytesOf(cfg.body)|)
    && TaskInv(cfg, s)
    && TokenInv(cfg, s)
  }

  lemma InitInv(cfg: Config)
    ensures Inv(cfg, Init(cfg))
  {
  }

  /** The events do not matter to the stream. */
  lemma BodyInvFrame(b: Body, b': Body, body: seq<BodyItem>)
    requires BodyInv(b, body) && HolderPolls(b)
    requires b'.stream == b.stream && b'.taken == b.taken && b'.readers == b.readers
    requires b'.holder == b.holder && b'.lockOrder == b.lockOrder
    ensures BodyInv(b', body) && HolderPolls(b')
  {
  }

  lemma PhaseAfterTwo(events: seq<Event>, e1: Event, e2: Event)
    ensures PhaseAfter(events + [e1, e2]) == Advance(Advance(PhaseAfter(events), e1), e2)
  {
    PhaseAfterSnoc(events, e1);
    PhaseAfterSnoc(events + [e1], e2);
    assert events + [e1] + [e2] == events + [e1, e2];
  }

  lemma PhaseAfterThree(events: seq<Event>, e1: Event, e2: Event, e3: Event)
    ensures PhaseAfter(events + [e1, e2, e3]) == Advance(Advance(Advance(PhaseAfter(events), e1), e2), e3)
  {
    PhaseAfterTwo(events, e1, e2);
    PhaseAfterSnoc(events + [e1, e2], e3);
    assert events + [e1, e2] + [e3] == events + [e1, e2, e3];
  }

  lemma FailKeepsInv(cfg: Config, s: State)
    requires Inv(cfg, s) && InFlight(s.task)
    ensures Inv(cfg, Finish(cfg, s, RequestFailed))
  {
  }

  lemma PollFirstKeepsInv(cfg: Config, s: State)
    requires Inv(cfg, s) && s.task.NotPolled?
    ensures Inv(cfg, PollFirst(cfg, s))
  {
    if !cfg.clientResolves {
      FailKeepsInv(cfg, s);
    } else {
      PollFirstKeepsTask(cfg, s);
      PollFirstReportsNoCompletion(cfg, s, |BytesOf(cfg.body)|);
      BodyInvFrame(s.body, PollFirst(cfg, s).body, cfg.body);
    }
  }

  lemma PollFirstKeepsTask(cfg: Config, s: State)
    requires TaskInv(cfg, s) && s.task.NotPolled? && cfg.clientResolves
    ensures TaskInv(cfg, PollFirst(cfg, s))
  {
    if cfg.hasSink {
      PhaseAfterStart(s.body.events);
    }
  }

  lemma PhaseAfterStart(events: seq<Event>)
    requires PhaseAfter(events) == Fresh
    ensures PhaseAfter(events + [Start] + [Error]) == Failed
    ensures PhaseAfter(events + [Start, Sent]) == AwaitingHeaders
  {
  }

  lemma PollFirstReportsNoCompletion(cfg: Config, s: State, total: nat)
    requires s.task.NotPolled? && CompleteReports(s.body.events, total)
    ensures CompleteReports(PollFirst(cfg, s).body.events, total)
  {
  }

  lemma {:induction false} NoTotalsBeforeBody(events: seq<Event>)
    requires PhaseAfter(events) in {Fresh, Started, AwaitingHeaders, HeadersSeen}
    ensures ReportedTotals(events) == []
    decreases |events|
  {
    if events != [] {
      NoTotalsBeforeBody(events[..|events| - 1]);
    }
  }

  lemma PollSendKeepsTask(cfg: Config, s: State)
    requires TaskInv(cfg, s) && s.task.AwaitingSend? && cfg.response.Some?
    ensures TaskInv(cfg, PollSend(cfg, s))
  {
    var headers := Headers(cfg.response.value.contentLength);
    if cfg.hasSink {
      PhaseAfterHeaders(s.body.events, headers);
    }
  }

  lemma PhaseAfterHeaders(events: seq<Event>, headers: Event)
    requires PhaseAfter(events) == AwaitingHeaders && headers.Headers?
    ensures PhaseAfter(events + [headers]) == HeadersSeen
    ensures PhaseAfter(events + [headers] + [Done]) == Finished
    ensures ReportedTotals(events + [headers]) == []
  {
    PhaseAfterSnoc(events, headers);
    PhaseAfterSnoc(events + [headers], Done);
    NoTotalsBeforeBody(events + [headers]);
  }

  lemma PollSendReportsNoCompletion(cfg: Config, s: State, total: nat)
    requires s.task.AwaitingSend? && cfg.response.Some? && CompleteReports(s.body.events, total)
    ensures CompleteReports(PollSend(cfg, s).body.events, total)
  {
  }

  lemma PollSendKeepsInv(cfg: Config, s: State)
    requires Inv(cfg, s) && s.task.AwaitingSend?
    ensures Inv(cfg, PollSend(cfg, s))
  {
    if cfg.response.None? {
      FailKeepsInv(cfg, s);
    } else {
      PollSendKeepsTask(cfg, s);
      PollSendReportsNoCompletion(cfg, s, |BytesOf(cfg.body)|);
      BodyInvFrame(s.body, PollSend(cfg, s).body, cfg.body);
    }
  }

  lemma PollBytesKeepsInv(cfg: Config, s: State)
    requires Inv(cfg, s) && s.task.AwaitingBytes?
    ensures Inv(cfg, PollBytes(cfg, s))
  {
    if ReadInline(cfg.body).None? {
      FailKeepsInv(cfg, s);
    } else {
      PollBytesKeepsTask(cfg, s);
      PollBytesReportsLength(cfg, s);
      BodyInvFrame(s.body, PollBytes(cfg, s).body, cfg.body);
    }
  }

  lemma PollBytesKeepsTask(cfg: Config, s: State)
    requires TaskInv(cfg, s) && s.task.AwaitingBytes? && ReadInline(cfg.body).Some?
    ensures TaskInv(cfg, PollBytes(cfg, s))
  {
    var n := |ReadInline(cfg.body).value|;
    PhaseAfterThree(s.body.events, Progress(n, Some(n)), Complete(n, Some(n)), Done);
  }

  lemma PollBytesReportsLength(cfg: Config, s: State)
    requires CompleteReports(s.body.events, |BytesOf(cfg.body)|)
    requires s.task.AwaitingBytes? && ReadInline(cfg.body).Some?
    ensures CompleteReports(PollBytes(cfg, s).body.events, |BytesOf(cfg.body)|)
  {
  }

  /** A body that is not stored is out of reach of every body step. */
  lemma UnreachableStays(b: Body, a: BodyAction)
    requires Unreachable(b) && BodyStep(b, a).Some?
    ensures Unreachable(BodyStep(b, a).value) && BodyStep(b, a).value.events == b.events
  {
  }

  lemma BodyActionKeepsInv(cfg: Config, s: State, a: BodyAction)
    requires Inv(cfg, s) && BodyStep(s.body, a).Some?
    ensures Inv(cfg, s.(body := BodyStep(s.body, a).value))
  {
    BodyStepKeepsInv(s.body, cfg.body, a);
    BodyStepKeepsHolder(s.body, a);
    if Streaming(s.task) {
      BodyStepTracks(s.body, a);
      BodyStepCompletes(s.body, cfg.body, a);
      if s.body.progress.None? {
        SilentWithoutState(s.body, a);
      }
    } else {
      UnreachableStays(s.body, a);
    }
  }

  /** Without an event state no body step reports anything. */
  lemma SilentWithoutState(b: Body, a: BodyAction)
    requires BodyStep(b, a).Some? && b.progress.None?
    ensures BodyStep(b, a).value.progress.None? && BodyStep(b, a).value.events == b.events
  {
  }

  lemma StepKeepsInv(cfg: Config, s: State, a: Action)
    requires Inv(cfg, s) && Step(cfg, s, a).Some?
    ensures Inv(cfg, Step(cfg, s, a).value)
  {
    match a {
      case PollRequest =>
        match s.task {
          case NotPolled => PollFirstKeepsInv(cfg, s);
          case AwaitingSend => PollSendKeepsInv(cfg, s);
          case _ => PollBytesKeepsInv(cfg, s);
        }
      case AbortBranch => FailKeepsInv(cfg, s);
      case OnBody(action) => BodyActionKeepsInv(cfg, s, action);
      case _ =>
    }
  }

  lemma {:induction false} ExecKeepsInv(cfg: Config, s: State, schedule: seq<Action>)
    requires Inv(cfg, s) && Exec(cfg, s, schedule).Some?
    ensures Inv(cfg, Exec(cfg, s, schedule).value)
    decreases |schedule|
  {
    if schedule != [] {
      StepKeepsInv(cfg, s, schedule[0]);
      ExecKeepsInv(cfg, Step(cfg, s, schedule[0]).value, schedule[1..]);
    }
  }

  // ----- The guarantees -----

  /**
   Over every schedule the events follow one fixed order, so at most one of done and error is
   reported and nothing follows it.
   */
  lemma EventsInOrder(cfg: Config, schedule: seq<Action>)
    requires Exec(cfg, Init(cfg), schedule).Some?
    ensures var events := Exec(cfg, Init(cfg), schedule).value.body.events;
      && WellOrdered(events) && InOrder(events)
      && (forall i :: 0 <= i < |events| && Terminal(events[i]) ==> i == |events| - 1)
  {
    InitInv(cfg);
    ExecKeepsInv(cfg, Init(cfg), schedule);
    TaskInvOrdersEvents(cfg, Exec(cfg, Init(cfg), schedule).value);
    WellOrderedSpelled(Exec(cfg, Init(cfg), schedule).value.body.events);
    TerminalsAreLast(Exec(cfg, Init(cfg), schedule).value.body.events);
  }

  lemma TaskInvOrdersEvents(cfg: Config, s: State)
    requires TaskInv(cfg, s)
    ensures WellOrdered(s.body.events)
  {
  }

  /** What a reader's promise hands to its caller. */
  function Handed(reader: Reader): Bytes {
    match reader
    case Returned(ChunkRead(bytes)) => bytes
    case Returned(WholeBody(bytes)) => bytes
    case _ => []
  }

  function HandedBy(readers: seq<Reader>, order: seq<nat>): Bytes
    requires forall i :: 0 <= i < |order| ==> order[i] < |readers|
    decreases |order|
  {
    if order == [] then []
    else HandedBy(readers, order[..|order| - 1]) + Handed(readers[order[|order| - 1]])
  }

  /**
   Over every mix of readers, what they got from the stream, in the order they held the lock, followed
   by what is left in it is the body: no byte is lost, duplicated or reordered. Once some reader saw
   the end of the body, they have all of it.
   */
  lemma BytesAreConserved(cfg: Config, schedule: seq<Action>)
    requires Exec(cfg, Init(cfg), schedule).Some?
    ensures var b := Exec(cfg, Init(cfg), schedule).value.body;
      && LocksInOrder(b)
      && CollectedBy(b.readers, b.lockOrder) + BytesOf(b.stream) == BytesOf(cfg.body)
      && (forall r :: 0 <= r < |b.readers| && SawEnd(b.readers[r]) ==>
            CollectedBy(b.readers, b.lockOrder) == BytesOf(cfg.body))
  {
    InitInv(cfg);
    ExecKeepsInv(cfg, Init(cfg), schedule);
    var b := Exec(cfg, Init(cfg), schedule).value.body;
    BytesOfConcat(b.taken, b.stream);
    assert b.stream == [] ==> BytesOf(b.stream) == [] && b.taken + b.stream == b.taken;
  }

  /** The read has handed over, or can still hand over, nothing less than it took from the stream. */
  predicate HandsAll(reader: Reader) {
    match reader
    case PollingAll(chunks) => Flatten(chunks) == []
    case Returned(ReadAllFailed(forgotten)) => forgotten == []
    case _ => true
  }

  predicate AllHandOver(readers: seq<Reader>, order: seq<nat>)
    requires forall i :: 0 <= i < |order| ==> order[i] < |readers|
  {
    forall i :: 0 <= i < |order| ==> HandsAll(readers[order[i]])
  }

  lemma {:induction false} HandedIsCollected(readers: seq<Reader>, order: seq<nat>)
    requires forall i :: 0 <= i < |order| ==> order[i] < |readers|
    ensures |HandedBy(readers, order)| <= |CollectedBy(readers, order)|
    ensures if AllHandOver(readers, order) then HandedBy(readers, order) == CollectedBy(readers, order)
      else |HandedBy(readers, order)| < |CollectedBy(readers, order)|
    decreases |order|
  {
    if order != [] {
      var n := |order| - 1;
      HandedIsCollected(readers, order[..n]);
      assert HandsAll(readers[order[n]]) <==> Handed(readers[order[n]]) == Collected(readers[order[n]]);
      assert forall i :: 0 <= i < n ==> order[..n][i] == order[i];
    }
  }

  /**
   What reads hand to their callers, in lock order, followed by the rest of the stream is the body if and
   only if no read of the whole body has bytes in hand or failed and forgot some. Then a read that saw the
   end of the body means that the callers have all of it.
   */
  lemma ResultsConcatenate(cfg: Config, schedule: seq<Action>)
    requires Exec(cfg, Init(cfg), schedule).Some?
    ensures var b := Exec(cfg, Init(cfg), schedule).value.body;
      && LocksInOrder(b)
      && (HandedBy(b.readers, b.lockOrder) + BytesOf(b.stream) == BytesOf(cfg.body)
          <==> AllHandOver(b.readers, b.lockOrder))
      && (AllHandOver(b.readers, b.lockOrder) && (exists r :: 0 <= r < |b.readers| && SawEnd(b.readers[r])) ==>
            HandedBy(b.readers, b.lockOrder) == BytesOf(cfg.body))
  {
    BytesAreConserved(cfg, schedule);
    var b := Exec(cfg, Init(cfg), schedule).value.body;
    HandedIsCollected(b.readers, b.lockOrder);
    if HandedBy(b.readers, b.lockOrder) + BytesOf(b.stream) == BytesOf(cfg.body) {
      assert |HandedBy(b.readers, b.lockOrder)| + |BytesOf(b.stream)|
          == |CollectedBy(b.readers, b.lockOrder)| + |BytesOf(b.stream)|;
    }
  }

  /**
   A settled promise has left the cancellation registry. With a listener, a request without a streamed
   body has reported exactly one terminal event, last: an error if it failed and done otherwise.
   */
  lemma SettledRequest(cfg: Config, schedule: seq<Action>)
    requires Exec(cfg, Init(cfg), schedule).Some?
    requires Exec(cfg, Init(cfg), schedule).value.task.Settled?
    ensures var s := Exec(cfg, Init(cfg), schedule).value;
      && !s.registered
      && (cfg.hasSink && !s.task.outcome.StreamedBody? ==>
            s.body.events != []
            && s.body.events[|s.body.events| - 1] == (if s.task.outcome.RequestFailed? then Error else Done))
      && (s.task.outcome.InlineBody? ==> s.task.outcome.bytes == BytesOf(cfg.body))
  {
    InitInv(cfg);
    ExecKeepsInv(cfg, Init(cfg), schedule);
    var events := Exec(cfg, Init(cfg), schedule).value.body.events;
    FinalPhase(events);
  }

  /** Only a terminal event leads to a final phase. */
  lemma FinalPhase(events: seq<Event>)
    ensures PhaseAfter(events) == Finished ==> events != [] && events[|events| - 1] == Done
    ensures PhaseAfter(events) == Failed ==> events != [] && events[|events| - 1] == Error
  {
  }

  // ----- The promise -----

  function RequestWork(s: State): nat {
    match s.task
    case NotPolled => 4
    case AwaitingSend => 3
    case AwaitingBytes => 2
    case Settling(_) => 1
    case Settled(_) => 0
  }

  /** The request itself always settles: some step of it is enabled until then, and each one counts down. */
  lemma {:induction false} RequestSettles(cfg: Config, s: State) returns (schedule: seq<Action>)
    ensures Exec(cfg, s, schedule).Some? && Exec(cfg, s, schedule).value.task.Settled?
    ensures |schedule| <= RequestWork(s)
    decreases RequestWork(s)
  {
    if s.task.Settled? {
      schedule := [];
    } else {
      var a := if s.task.Settling? then SettlePromise else PollRequest;
      var rest := RequestSettles(cfg, Step(cfg, s, a).value);
      schedule := [a] + rest;
      assert schedule[1..] == rest;
    }
  }
}
