/**
 What a listener is told of one request over every schedule: when a terminal event comes and which one,
 when errors are reported, and when progress is. Where the code reports less than its documentation
 promises, the exact condition is stated, with a run that shows it.
 */
module RequestReports {
  import opened Wrappers
  import opened RequestEvents
  import opened BodyStreams
  import opened BodyEvents
  import opened BodyReports
  import opened RequestLifecycle
  import opened RequestGuarantees
  import opened RequestCancellation
  import opened Text
  import Sequences

  // ----- From the steps of a stored body to runs -----

  lemma NoTerminalBeforeBody(events: seq<Event>)
    requires PhaseAfter(events) == HeadersSeen
    ensures !Reported(events)
  {
    TerminalsAreLast(events);
    assert events != [] && events[|events| - 1].Headers?;
  }

  /** A listener's view of a stored body that only drops of the handle can spoil. */
  ghost predicate BodyTracks(b: Body) {
    ClaimsTrack(b) && ErrorsTrack(b) && ProgressTracks(b)
  }

  lemma StoringBody(cfg: Config, s: State)
    requires s.task.AwaitingSend? && cfg.hasSink && Streaming(PollSend(cfg, s).task)
    ensures cfg.response.Some?
    ensures var length := cfg.response.value.contentLength;
      PollSend(cfg, s).body == s.body.(events := s.body.events + [Headers(length)], cached := true,
                                       contentLength := length, progress := Some(0))
  {
  }

  /** A stream has just been stored: no read has claimed it and nothing was reported of it. */
  lemma StoredTracks(cfg: Config, s: State)
    requires Inv(cfg, s) && s.task.AwaitingSend? && cfg.hasSink && Streaming(PollSend(cfg, s).task)
    ensures BodyTracks(PollSend(cfg, s).body)
  {
    StoringBody(cfg, s);
    var headers := Headers(cfg.response.value.contentLength);
    PhaseAfterHeaders(s.body.events, headers);
    NoTerminalBeforeBody(s.body.events + [headers]);
    NewBodyTracks(PollSend(cfg, s).body, s.body.events + [headers]);
  }

  lemma NewBodyTracks(b: Body, events: seq<Event>)
    requires b.events == events && !Reported(events) && ReportedTotals(events) == []
    requires b.progress.Some? && b.taken == []
    requires forall r :: 0 <= r < |b.readers| ==> b.readers[r] == Returned(NotFound)
    ensures BodyTracks(b)
  {
    assert !Claimed(b.readers) && Returned(ChunkFailed) !in b.readers;
  }

  lemma BodyStepTracksAll(b: Body, body: seq<BodyItem>, a: BodyAction)
    requires BodyTracks(b) && EventsTrack(b) && BodyInv(b, body) && BodyStep(b, a).Some? && a != DropHandle
    ensures BodyTracks(BodyStep(b, a).value)
  {
    BodyStepTracksClaims(b, a);
    BodyStepTracksErrors(b, a);
    BodyStepTracksProgress(b, a);
  }

  lemma StepTracks(cfg: Config, s: State, a: Action)
    requires Inv(cfg, s) && cfg.hasSink && Step(cfg, s, a).Some? && a != OnBody(DropHandle)
    requires Streaming(s.task) ==> BodyTracks(s.body)
    ensures Streaming(Step(cfg, s, a).value.task) ==> BodyTracks(Step(cfg, s, a).value.body)
  {
    if Streaming(s.task) {
      if a.OnBody? {
        BodyStepTracksAll(s.body, cfg.body, a.action);
      }
    } else if a.PollRequest? && s.task.AwaitingSend? && Streaming(PollSend(cfg, s).task) {
      StoredTracks(cfg, s);
    }
  }

  lemma {:induction false} ExecTracks(cfg: Config, s: State, schedule: seq<Action>)
    requires Inv(cfg, s) && cfg.hasSink && Exec(cfg, s, schedule).Some? && OnBody(DropHandle) !in schedule
    requires Streaming(s.task) ==> BodyTracks(s.body)
    ensures var end := Exec(cfg, s, schedule).value; Inv(cfg, end) && (Streaming(end.task) ==> BodyTracks(end.body))
    decreases |schedule|
  {
    if schedule != [] {
      StepKeepsInv(cfg, s, schedule[0]);
      StepTracks(cfg, s, schedule[0]);
      ExecTracks(cfg, Step(cfg, s, schedule[0]).value, schedule[1..]);
    }
  }

  // ----- Terminal events and errors -----

  /**
   With a listener, over every schedule that does not drop the handle, a streamed body has reported done
   or an error if and only if some read saw the end of the body or failed on a chunk.
   */
  lemma TerminalEventIffClaimed(cfg: Config, schedule: seq<Action>)
    requires cfg.hasSink && Exec(cfg, Init(cfg), schedule).Some? && OnBody(DropHandle) !in schedule
    requires Streaming(Exec(cfg, Init(cfg), schedule).value.task)
    ensures var b := Exec(cfg, Init(cfg), schedule).value.body;
      && (Reported(b.events) <==> Claimed(b.readers))
      && (b.progress.None? <==> Claimed(b.readers))
  {
    InitInv(cfg);
    ExecTracks(cfg, Init(cfg), schedule);
  }

  /**
   Under the same conditions, an error was reported if and only if some read of one chunk failed. A failed
   read of the whole body reports none.
   */
  lemma ErrorIffChunkReadFailed(cfg: Config, schedule: seq<Action>)
    requires cfg.hasSink && Exec(cfg, Init(cfg), schedule).Some? && OnBody(DropHandle) !in schedule
    requires Streaming(Exec(cfg, Init(cfg), schedule).value.task)
    ensures var b := Exec(cfg, Init(cfg), schedule).value.body;
      Error in b.events <==> Returned(ChunkFailed) in b.readers
  {
    InitInv(cfg);
    ExecTracks(cfg, Init(cfg), schedule);
  }

  predicate ReadFailed(reader: Reader) {
    reader.Returned? && (reader.outcome.ChunkFailed? || reader.outcome.ReadAllFailed?)
  }

  /** Some read of the body failed. */
  predicate SomeReadFailed(readers: seq<Reader>) {
    exists r :: 0 <= r < |readers| && ReadFailed(readers[r])
  }

  /** What the documentation promises of a streamed body: a failure is reported. */
  predicate FailureIsReported(b: Body) {
    SomeReadFailed(b.readers) ==> Error in b.events
  }

  /** The promise is kept exactly unless reads of the whole body failed and no read of one chunk did. */
  lemma WhenFailureIsReported(cfg: Config, schedule: seq<Action>)
    requires cfg.hasSink && Exec(cfg, Init(cfg), schedule).Some? && OnBody(DropHandle) !in schedule
    requires Streaming(Exec(cfg, Init(cfg), schedule).value.task)
    ensures var b := Exec(cfg, Init(cfg), schedule).value.body;
      FailureIsReported(b) <==>
        Returned(ChunkFailed) in b.readers
        || forall r :: 0 <= r < |b.readers| ==> !(b.readers[r].Returned? && b.readers[r].outcome.ReadAllFailed?)
  {
    ErrorIffChunkReadFailed(cfg, schedule);
    var readers := Exec(cfg, Init(cfg), schedule).value.body.readers;
    if Returned(ChunkFailed) !in readers {
      assert forall r :: 0 <= r < |readers| && ReadFailed(readers[r]) ==> readers[r].outcome.ReadAllFailed?;
    }
  }

  predicate ReadsAll(reader: Reader) {
    reader.WaitingForAll? || reader.PollingAll?
    || (reader.Returned? && (reader.outcome.WholeBody? || reader.outcome.ReadAllFailed?))
  }

  predicate NobodyReadsAll(b: Body) {
    forall r :: 0 <= r < |b.readers| ==> !ReadsAll(b.readers[r])
  }

  lemma {:induction false} ChunkReadersOnly(cfg: Config, s: State, schedule: seq<Action>)
    requires Exec(cfg, s, schedule).Some? && OnBody(OpenAll) !in schedule && NobodyReadsAll(s.body)
    ensures NobodyReadsAll(Exec(cfg, s, schedule).value.body)
    decreases |schedule|
  {
    if schedule != [] {
      var next := Step(cfg, s, schedule[0]).value;
      if schedule[0].OnBody? {
        ChunkReadersStay(s.body, schedule[0].action);
      } else {
        assert next.body.readers == s.body.readers;
      }
      ChunkReadersOnly(cfg, next, schedule[1..]);
    }
  }

  lemma ChunkReadersStay(b: Body, a: BodyAction)
    requires NobodyReadsAll(b) && a != OpenAll && BodyStep(b, a).Some?
    ensures NobodyReadsAll(BodyStep(b, a).value)
  {
    if a.PollStream? {
      PollEffect(b, a.reader);
      assert !ReadsAll(b.readers[a.reader]);
    }
  }

  /** A caller who only ever reads chunk by chunk is told of every failure, and of nothing else. */
  lemma ChunkReadersSeeFailures(cfg: Config, schedule: seq<Action>)
    requires cfg.hasSink && Exec(cfg, Init(cfg), schedule).Some?
    requires OnBody(DropHandle) !in schedule && OnBody(OpenAll) !in schedule
    requires Streaming(Exec(cfg, Init(cfg), schedule).value.task)
    ensures var b := Exec(cfg, Init(cfg), schedule).value.body; Error in b.events <==> SomeReadFailed(b.readers)
  {
    ErrorIffChunkReadFailed(cfg, schedule);
    ChunkReadersOnly(cfg, Init(cfg), schedule);
    var readers := Exec(cfg, Init(cfg), schedule).value.body.readers;
    assert forall r :: 0 <= r < |readers| ==> (ReadFailed(readers[r]) <==> readers[r] == Returned(ChunkFailed));
  }

  // ----- Progress of a streamed body -----

  lemma StepKeepsDone(cfg: Config, s: State, a: Action)
    requires Inv(cfg, s) && Step(cfg, s, a).Some?
    requires Streaming(s.task) ==> DoneMeansAll(s.body, cfg.body)
    ensures Streaming(Step(cfg, s, a).value.task) ==> DoneMeansAll(Step(cfg, s, a).value.body, cfg.body)
  {
    if Streaming(s.task) {
      if a.OnBody? {
        BodyStepKeepsDone(s.body, cfg.body, a.action);
      }
    } else if a.PollRequest? && s.task.AwaitingSend? && Streaming(PollSend(cfg, s).task) {
      if cfg.hasSink {
        StoredTracks(cfg, s);
      }
    }
  }

  lemma {:induction false} ExecKeepsDone(cfg: Config, s: State, schedule: seq<Action>)
    requires Inv(cfg, s) && Exec(cfg, s, schedule).Some?
    requires Streaming(s.task) ==> DoneMeansAll(s.body, cfg.body)
    ensures var end := Exec(cfg, s, schedule).value;
      Inv(cfg, end) && (Streaming(end.task) ==> DoneMeansAll(end.body, cfg.body))
    decreases |schedule|
  {
    if schedule != [] {
      StepKeepsInv(cfg, s, schedule[0]);
      StepKeepsDone(cfg, s, schedule[0]);
      ExecKeepsDone(cfg, Step(cfg, s, schedule[0]).value, schedule[1..]);
    }
  }

  lemma TotalsOfInv(cfg: Config, s: State)
    requires Inv(cfg, s) && (Streaming(s.task) ==> DoneMeansAll(s.body, cfg.body))
    ensures CompleteReports(s.body.events, |BytesOf(cfg.body)|)
    ensures Streaming(s.task) ==>
      && ReportedTotals(s.body.events) <= RunningTotals(s.body.taken)
      && (s.body.progress.Some? ==> ReportedTotals(s.body.events) == RunningTotals(s.body.taken))
      && (Done in s.body.events ==> ReportedTotals(s.body.events) == RunningTotals(cfg.body))
  {
  }

  /**
   Over every schedule, progress events of a streamed body carry its running totals, of a body reported
   done all of them; completion carries the length of the whole body.
   */
  lemma ProgressIsExact(cfg: Config, schedule: seq<Action>)
    requires Exec(cfg, Init(cfg), schedule).Some?
    ensures var s := Exec(cfg, Init(cfg), schedule).value;
      && CompleteReports(s.body.events, |BytesOf(cfg.body)|)
      && (Streaming(s.task) ==>
            && ReportedTotals(s.body.events) <= RunningTotals(s.body.taken)
            && (s.body.progress.Some? ==> ReportedTotals(s.body.events) == RunningTotals(s.body.taken))
            && (Done in s.body.events ==> ReportedTotals(s.body.events) == RunningTotals(cfg.body)))
  {
    InitInv(cfg);
    ExecKeepsDone(cfg, Init(cfg), schedule);
    TotalsOfInv(cfg, Exec(cfg, Init(cfg), schedule).value);
  }

  /**
   With a listener and without a drop of the handle, nothing is missing: the progress reported is that of
   all that was taken from the stream, or of all that was taken before the error that was reported.
   */
  lemma ProgressIsComplete(cfg: Config, schedule: seq<Action>)
    requires cfg.hasSink && Exec(cfg, Init(cfg), schedule).Some? && OnBody(DropHandle) !in schedule
    requires Streaming(Exec(cfg, Init(cfg), schedule).value.task)
    ensures var b := Exec(cfg, Init(cfg), schedule).value.body;
      if Error in b.events then exists n: nat :: ReportedBefore(b, n)
      else && ReportedTotals(b.events) == RunningTotals(b.taken)
           && (ReportedTotals(b.events) != [] <==> TookChunk(b.taken))
  {
    InitInv(cfg);
    ExecTracks(cfg, Init(cfg), schedule);
    TotalsOfChunks(Exec(cfg, Init(cfg), schedule).value.body.taken);
  }

  // ----- Progress without reading the body -----

  /** The totals a request has reported before any of a streamed body. */
  predicate OwnTotals(s: State, totals: seq<nat>) {
    match s.task
    case Settling(InlineBody(bytes)) => totals == [|bytes|]
    case Settled(InlineBody(bytes)) => totals == [|bytes|]
    case Settling(StreamedBody) => true
    case Settled(StreamedBody) => true
    case _ => totals == []
  }

  predicate TotalsTrack(s: State) {
    OwnTotals(s, ReportedTotals(s.body.events))
  }

  /** Events other than progress change no totals. */
  lemma EmitTotals(cfg: Config, s: State, event: Event)
    requires !event.Progress?
    ensures var next := Emit(cfg, s, [event]);
      ReportedTotals(next.body.events) == ReportedTotals(s.body.events) && next.task == s.task
  {
    ReportedTotalsSnoc(s.body.events, event);
  }

  lemma FinishTotals(cfg: Config, s: State)
    ensures ReportedTotals(Finish(cfg, s, RequestFailed).body.events) == ReportedTotals(s.body.events)
  {
    EmitTotals(cfg, s, Error);
  }

  lemma StartTotals(cfg: Config, s: State)
    ensures ReportedTotals(Emit(cfg, s, [Start, Sent]).body.events) == ReportedTotals(s.body.events)
    ensures ReportedTotals(Finish(cfg, Emit(cfg, s, [Start]), RequestFailed).body.events)
         == ReportedTotals(s.body.events)
  {
    var events := s.body.events;
    ReportedTotalsSnoc(events, Start);
    ReportedTotalsSnoc(events + [Start], Sent);
    assert events + [Start] + [Sent] == events + [Start, Sent];
    EmitTotals(cfg, s, Start);
    FinishTotals(cfg, Emit(cfg, s, [Start]));
  }

  lemma PollFirstCases(cfg: Config, s: State)
    ensures var next := PollFirst(cfg, s);
      || next == Finish(cfg, s, RequestFailed)
      || next == Finish(cfg, Emit(cfg, s, [Start]), RequestFailed)
      || (next.task == AwaitingSend && next.body.events == Emit(cfg, s, [Start, Sent]).body.events)
  {
  }

  lemma PollFirstTotals(cfg: Config, s: State)
    requires TotalsTrack(s) && s.task.NotPolled?
    ensures TotalsTrack(PollFirst(cfg, s))
  {
    StartTotals(cfg, s);
    FinishTotals(cfg, s);
    PollFirstCases(cfg, s);
  }

  /** The response's headers, and done if it has no body, on top of what was reported. */
  lemma HeadersTotals(cfg: Config, s: State, headers: Event)
    requires headers.Headers?
    ensures var seen := Emit(cfg, s, [headers]);
      && ReportedTotals(seen.body.events) == ReportedTotals(s.body.events)
      && ReportedTotals(Emit(cfg, seen, [Done]).body.events) == ReportedTotals(s.body.events)
  {
    EmitTotals(cfg, s, headers);
    EmitTotals(cfg, Emit(cfg, s, [headers]), Done);
  }

  lemma PollSendCases(cfg: Config, s: State)
    requires cfg.response.Some?
    ensures var next := PollSend(cfg, s); var seen := Emit(cfg, s, [Headers(cfg.response.value.contentLength)]);
      || (next.task == Settling(NoBody) && next.body.events == Emit(cfg, seen, [Done]).body.events)
      || (next.task == AwaitingBytes && next.body.events == seen.body.events)
      || next.task == Settling(StreamedBody)
  {
  }

  lemma PollSendTotals(cfg: Config, s: State)
    requires TotalsTrack(s) && s.task.AwaitingSend?
    ensures TotalsTrack(PollSend(cfg, s))
  {
    if cfg.response.None? {
      FinishTotals(cfg, s);
    } else {
      HeadersTotals(cfg, s, Headers(cfg.response.value.contentLength));
      PollSendCases(cfg, s);
    }
  }

  lemma InlineTotals(events: seq<Event>, n: nat)
    requires ReportedTotals(events) == []
    ensures ReportedTotals(events + [Progress(n, Some(n)), Complete(n, Some(n)), Done]) == [n]
  {
    var progress, complete := Progress(n, Some(n)), Complete(n, Some(n));
    ReportedTotalsSnoc(events, progress);
    ReportedTotalsSnoc(events + [progress], complete);
    ReportedTotalsSnoc(events + [progress] + [complete], Done);
    assert events + [progress] + [complete] + [Done] == events + [progress, complete, Done];
  }

  lemma PollBytesCases(cfg: Config, s: State)
    requires cfg.hasSink
    ensures var next, inline := PollBytes(cfg, s), ReadInline(cfg.body);
      if inline.None? then next == Finish(cfg, s, RequestFailed)
      else
        var n := |inline.value|;
        && next.task == Settling(InlineBody(inline.value))
        && next.body.events == s.body.events + [Progress(n, Some(n)), Complete(n, Some(n)), Done]
  {
  }

  lemma PollBytesTotals(cfg: Config, s: State)
    requires TotalsTrack(s) && s.task.AwaitingBytes? && cfg.hasSink
    ensures TotalsTrack(PollBytes(cfg, s))
  {
    FinishTotals(cfg, s);
    PollBytesCases(cfg, s);
    if ReadInline(cfg.body).Some? {
      InlineTotals(s.body.events, |ReadInline(cfg.body).value|);
    }
  }

  lemma StepTracksTotals(cfg: Config, s: State, a: Action)
    requires Inv(cfg, s) && cfg.hasSink && TotalsTrack(s) && Step(cfg, s, a).Some?
    ensures TotalsTrack(Step(cfg, s, a).value)
  {
    match a {
      case PollRequest =>
        match s.task {
          case NotPolled => PollFirstTotals(cfg, s);
          case AwaitingSend => PollSendTotals(cfg, s);
          case _ => PollBytesTotals(cfg, s);
        }
      case AbortBranch => FinishTotals(cfg, s);
      case OnBody(action) =>
        if !Streaming(s.task) {
          UnreachableStays(s.body, action);
        }
      case _ =>
    }
  }

  lemma {:induction false} ExecTracksTotals(cfg: Config, s: State, schedule: seq<Action>)
    requires Inv(cfg, s) && cfg.hasSink && TotalsTrack(s) && Exec(cfg, s, schedule).Some?
    ensures TotalsTrack(Exec(cfg, s, schedule).value)
    decreases |schedule|
  {
    if schedule != [] {
      StepKeepsInv(cfg, s, schedule[0]);
      StepTracksTotals(cfg, s, schedule[0]);
      ExecTracksTotals(cfg, Step(cfg, s, schedule[0]).value, schedule[1..]);
    }
  }

  predicate NobodyPolls(schedule: seq<Action>) {
    forall i :: 0 <= i < |schedule| ==> !(schedule[i].OnBody? && schedule[i].action.PollStream?)
  }

  lemma {:induction false} OnlyPollsTake(cfg: Config, s: State, schedule: seq<Action>)
    requires Exec(cfg, s, schedule).Some? && NobodyPolls(schedule)
    ensures Exec(cfg, s, schedule).value.body.taken == s.body.taken
    decreases |schedule|
  {
    if schedule != [] {
      var next := Step(cfg, s, schedule[0]).value;
      assert !(schedule[0].OnBody? && schedule[0].action.PollStream?);
      assert forall i :: 0 <= i < |schedule[1..]| ==> schedule[1..][i] == schedule[i + 1];
      assert next.body.taken == s.body.taken;
      OnlyPollsTake(cfg, next, schedule[1..]);
    }
  }

  /** A streamed body that nobody reads reports no progress, however much of it has arrived. */
  lemma UnreadBodyReportsNoProgress(cfg: Config, schedule: seq<Action>)
    requires Exec(cfg, Init(cfg), schedule).Some? && NobodyPolls(schedule)
    requires Streaming(Exec(cfg, Init(cfg), schedule).value.task)
    ensures ReportedTotals(Exec(cfg, Init(cfg), schedule).value.body.events) == []
  {
    OnlyPollsTake(cfg, Init(cfg), schedule);
    ProgressIsExact(cfg, schedule);
  }

  /**
   With a listener, over every schedule in which nobody polls a stream, a request that has returned has
   reported progress if and only if its body came inline. Unless it was cancelled, the request and its
   response alone decide that: the body must be allowed, free of errors and declared small enough.
   */
  lemma ProgressWithoutReading(cfg: Config, schedule: seq<Action>)
    requires cfg.hasSink && Exec(cfg, Init(cfg), schedule).Some? && NobodyPolls(schedule)
    requires !InFlight(Exec(cfg, Init(cfg), schedule).value.task)
    ensures var s := Exec(cfg, Init(cfg), schedule).value;
      && (ReportedTotals(s.body.events) != [] <==> s.task.outcome.InlineBody?)
      && (CancelRequest !in schedule ==>
            (ReportedTotals(s.body.events) != [] <==> PrescribedOutcome(cfg).InlineBody?))
      && (s.task.outcome.InlineBody? || s.task.outcome.StreamedBody? ==>
            && cfg.response.Some?
            && (ReportedTotals(s.body.events) != [] <==> InlineEligible(cfg.response.value.contentLength)))
  {
    InitInv(cfg);
    ExecTracksTotals(cfg, Init(cfg), schedule);
    OutcomeIsPrescribed(cfg, schedule);
    if Streaming(Exec(cfg, Init(cfg), schedule).value.task) {
      UnreadBodyReportsNoProgress(cfg, schedule);
    }
  }

  // ----- Declared lengths -----

  /** Headers carry the declared length; so do progress and completion, except of an inline body. */
  predicate LengthOk(cfg: Config, inline: bool, event: Event) {
    match event
    case Headers(length) => cfg.response.Some? && length == cfg.response.value.contentLength
    case Progress(_, length) => if inline then length == Some(|BytesOf(cfg.body)|)
                                else cfg.response.Some? && length == cfg.response.value.contentLength
    case Complete(_, length) => if inline then length == Some(|BytesOf(cfg.body)|)
                                else cfg.response.Some? && length == cfg.response.value.contentLength
    case _ => true
  }

  predicate LengthsOk(cfg: Config, inline: bool, events: seq<Event>) {
    forall i :: 0 <= i < |events| ==> LengthOk(cfg, inline, events[i])
  }

  predicate NothingOfBody(events: seq<Event>) {
    forall i :: 0 <= i < |events| ==> !events[i].Progress? && !events[i].Complete?
  }

  predicate LengthsTrack(cfg: Config, s: State) {
    && LengthsOk(cfg, !Streaming(s.task), s.body.events)
    && (Streaming(s.task) ==> cfg.response.Some? && s.body.contentLength == cfg.response.value.contentLength)
    && (InFlight(s.task) ==> NothingOfBody(s.body.events))
  }

  lemma LengthsConcat(cfg: Config, inline: bool, events: seq<Event>, more: seq<Event>)
    requires LengthsOk(cfg, inline, events) && LengthsOk(cfg, inline, more)
    ensures LengthsOk(cfg, inline, events + more)
  {
  }

  lemma BodyStepTracksLengths(cfg: Config, b: Body, a: BodyAction)
    requires LengthsOk(cfg, false, b.events) && BodyStep(b, a).Some?
    requires cfg.response.Some? && b.contentLength == cfg.response.value.contentLength
    ensures var next := BodyStep(b, a).value;
      LengthsOk(cfg, false, next.events) && next.contentLength == b.contentLength
  {
    if a.PollStream? {
      PollReports(b, a.reader);
      LengthsConcat(cfg, false, b.events, PollEvents(b, a.reader));
    } else {
      OtherStepsReportNothing(b, a);
    }
  }

  lemma PollTracksLengths(cfg: Config, s: State)
    requires LengthsTrack(cfg, s) && InFlight(s.task) && Step(cfg, s, PollRequest).Some?
    ensures LengthsTrack(cfg, Step(cfg, s, PollRequest).value)
  {
    match s.task {
      case NotPolled => FirstPollLengths(cfg, s);
      case AwaitingSend => SendPollLengths(cfg, s);
      case AwaitingBytes => BytesPollLengths(cfg, s);
    }
  }

  lemma FirstPollLengths(cfg: Config, s: State)
    requires LengthsTrack(cfg, s) && s.task.NotPolled?
    ensures LengthsTrack(cfg, PollFirst(cfg, s))
  {
  }

  lemma SendPollLengths(cfg: Config, s: State)
    requires LengthsTrack(cfg, s) && s.task.AwaitingSend?
    ensures LengthsTrack(cfg, PollSend(cfg, s))
  {
  }

  lemma BytesPollLengths(cfg: Config, s: State)
    requires LengthsTrack(cfg, s) && s.task.AwaitingBytes?
    ensures LengthsTrack(cfg, PollBytes(cfg, s))
  {
  }

  lemma BodyActionTracksLengths(cfg: Config, s: State, a: BodyAction)
    requires Inv(cfg, s) && LengthsTrack(cfg, s) && BodyStep(s.body, a).Some?
    ensures LengthsTrack(cfg, s.(body := BodyStep(s.body, a).value))
  {
    if Streaming(s.task) {
      BodyStepTracksLengths(cfg, s.body, a);
    } else {
      UnreachableStays(s.body, a);
    }
  }

  lemma RequestStepTracksLengths(cfg: Config, s: State, a: Action)
    requires LengthsTrack(cfg, s) && Step(cfg, s, a).Some? && !a.OnBody?
    ensures LengthsTrack(cfg, Step(cfg, s, a).value)
  {
    if a == PollRequest {
      PollTracksLengths(cfg, s);
    }
  }

  lemma StepTracksLengths(cfg: Config, s: State, a: Action)
    requires Inv(cfg, s) && LengthsTrack(cfg, s) && Step(cfg, s, a).Some?
    ensures LengthsTrack(cfg, Step(cfg, s, a).value)
  {
    if a.OnBody? {
      BodyActionTracksLengths(cfg, s, a.action);
    } else {
      RequestStepTracksLengths(cfg, s, a);
    }
  }

  lemma {:induction false} ExecTracksLengths(cfg: Config, s: State, schedule: seq<Action>)
    requires Inv(cfg, s) && LengthsTrack(cfg, s) && Exec(cfg, s, schedule).Some?
    ensures LengthsTrack(cfg, Exec(cfg, s, schedule).value)
    decreases |schedule|
  {
    if schedule != [] {
      StepKeepsInv(cfg, s, schedule[0]);
      StepTracksLengths(cfg, s, schedule[0]);
      ExecTracksLengths(cfg, Step(cfg, s, schedule[0]).value, schedule[1..]);
    }
  }

  /**
   Over every schedule, headers carry the length that the response declares. So do progress and completion
   of a streamed body; those of an inline body carry its true length.
   */
  lemma EventLengths(cfg: Config, schedule: seq<Action>, i: nat)
    requires Exec(cfg, Init(cfg), schedule).Some?
    requires i < |Exec(cfg, Init(cfg), schedule).value.body.events|
    ensures var s := Exec(cfg, Init(cfg), schedule).value;
      match s.body.events[i]
      case Headers(length) => cfg.response.Some? && length == cfg.response.value.contentLength
      case Progress(_, length) =>
        if Streaming(s.task) then cfg.response.Some? && length == cfg.response.value.contentLength
        else length == Some(|BytesOf(cfg.body)|)
      case Complete(_, length) =>
        if Streaming(s.task) then cfg.response.Some? && length == cfg.response.value.contentLength
        else length == Some(|BytesOf(cfg.body)|)
      case _ => true
  {
    InitInv(cfg);
    ExecTracksLengths(cfg, Init(cfg), schedule);
    assert LengthOk(cfg, !Streaming(Exec(cfg, Init(cfg), schedule).value.task),
                    Exec(cfg, Init(cfg), schedule).value.body.events[i]);
  }

  // ----- What a listener is told, event by event -----

  /** All events of a request whose body is not streamed, and the first ones of a request whose body is. */
  function Told(cfg: Config): seq<Event> {
    if !cfg.clientResolves then [Error]
    else if !HasKnownMethod(cfg) then [Start, Error]
    else if cfg.response.None? then [Start, Sent, Error]
    else
      var head := [Start, Sent, Headers(cfg.response.value.contentLength)];
      if HasNoBody(cfg) then head + [Done]
      else if !IsSmall(cfg) then head
      else if Breaks(cfg.body) then head + [Error]
      else
        var n := |BytesOf(cfg.body)|;
        head + [Progress(n, Some(n)), Complete(n, Some(n)), Done]
  }

  /** Told so far, unless the request was cancelled. */
  predicate ToldTracks(cfg: Config, s: State) {
    s.cancelled ||
    match s.task
    case NotPolled => s.body.events == []
    case AwaitingSend => s.body.events == [Start, Sent] && cfg.clientResolves && HasKnownMethod(cfg)
    case AwaitingBytes =>
      && Arrives(cfg) && !HasNoBody(cfg) && IsSmall(cfg)
      && s.body.events == [Start, Sent, Headers(cfg.response.value.contentLength)]
    case Settling(outcome) => if outcome.StreamedBody? then Told(cfg) <= s.body.events else s.body.events == Told(cfg)
    case Settled(outcome) => if outcome.StreamedBody? then Told(cfg) <= s.body.events else s.body.events == Told(cfg)
  }

  lemma FirstPollTold(cfg: Config, s: State)
    requires cfg.hasSink && s.task.NotPolled? && ToldTracks(cfg, s)
    ensures ToldTracks(cfg, PollFirst(cfg, s))
  {
    SupportedMethods(cfg);
  }

  lemma SendPollTold(cfg: Config, s: State)
    requires cfg.hasSink && s.task.AwaitingSend? && ToldTracks(cfg, s)
    ensures ToldTracks(cfg, PollSend(cfg, s))
  {
    HeadIgnoringCase(EffectiveMethod(cfg));
    assert !IsHead("GET") && !IsHead("");
  }

  lemma BytesPollTold(cfg: Config, s: State)
    requires cfg.hasSink && s.task.AwaitingBytes? && ToldTracks(cfg, s)
    ensures ToldTracks(cfg, PollBytes(cfg, s))
  {
  }

  lemma BodyActionsOnlyReport(b: Body, a: BodyAction)
    requires BodyStep(b, a).Some?
    ensures b.events <= BodyStep(b, a).value.events
  {
    if a.PollStream? {
      PollReports(b, a.reader);
    } else {
      OtherStepsReportNothing(b, a);
    }
  }

  lemma BodyActionTold(cfg: Config, s: State, a: BodyAction)
    requires Inv(cfg, s) && ToldTracks(cfg, s) && BodyStep(s.body, a).Some?
    ensures ToldTracks(cfg, s.(body := BodyStep(s.body, a).value))
  {
    if Streaming(s.task) {
      BodyActionsOnlyReport(s.body, a);
    } else {
      UnreachableStays(s.body, a);
    }
  }

  lemma StepTold(cfg: Config, s: State, a: Action)
    requires cfg.hasSink && Inv(cfg, s) && ToldTracks(cfg, s) && Step(cfg, s, a).Some?
    ensures ToldTracks(cfg, Step(cfg, s, a).value)
  {
    if a.OnBody? {
      BodyActionTold(cfg, s, a.action);
    } else if a.PollRequest? {
      match s.task {
        case NotPolled => FirstPollTold(cfg, s);
        case AwaitingSend => SendPollTold(cfg, s);
        case AwaitingBytes => BytesPollTold(cfg, s);
      }
    }
  }

  lemma {:induction false} ExecTold(cfg: Config, s: State, schedule: seq<Action>)
    requires cfg.hasSink && Inv(cfg, s) && ToldTracks(cfg, s) && Exec(cfg, s, schedule).Some?
    ensures ToldTracks(cfg, Exec(cfg, s, schedule).value)
    decreases |schedule|
  {
    if schedule != [] {
      StepKeepsInv(cfg, s, schedule[0]);
      StepTold(cfg, s, schedule[0]);
      ExecTold(cfg, Step(cfg, s, schedule[0]).value, schedule[1..]);
    }
  }

  /**
   Over every schedule without a cancellation, however readers interleave: once the request has returned, a
   listener has been told exactly these events, and if the body is streamed, these before all others.
   */
  lemma EventsSpelled(cfg: Config, schedule: seq<Action>)
    requires cfg.hasSink && Exec(cfg, Init(cfg), schedule).Some? && CancelRequest !in schedule
    requires !InFlight(Exec(cfg, Init(cfg), schedule).value.task)
    ensures var s := Exec(cfg, Init(cfg), schedule).value;
      if Streaming(s.task) then Told(cfg) <= s.body.events else s.body.events == Told(cfg)
  {
    InitInv(cfg);
    ExecTold(cfg, Init(cfg), schedule);
    ExecStaysOnTrack(cfg, Init(cfg), schedule);
  }

  // ----- Losing the handle -----

  /** The step takes the stream out of the cache. */
  predicate LosesHandle(b: Body, a: BodyAction)
    requires BodyStep(b, a).Some?
  {
    match a
    case OpenAll => true
    case DropHandle => true
    case EvictHandle => true
    case PollStream(r) => BodyStep(b, a).value.readers[r] in {Returned(EndOfBody), Returned(ChunkFailed)}
    case _ => false
  }

  lemma WhenHandleIsLost(b: Body, a: BodyAction)
    requires BodyStep(b, a).Some?
    ensures a.PollStream? ==> a.reader < |BodyStep(b, a).value.readers|
    ensures BodyStep(b, a).value.cached <==> b.cached && !LosesHandle(b, a)
  {
  }

  lemma {:induction false} LostStaysLost(cfg: Config, s: State, schedule: seq<Action>)
    requires Streaming(s.task) && !s.body.cached && Exec(cfg, s, schedule).Some?
    ensures var end := Exec(cfg, s, schedule).value;
      && Streaming(end.task) && !end.body.cached && |end.body.readers| >= |s.body.readers|
      && (forall r :: |s.body.readers| <= r < |end.body.readers| ==> end.body.readers[r] == Returned(NotFound))
    decreases |schedule|
  {
    if schedule != [] {
      var next := Step(cfg, s, schedule[0]).value;
      LostStep(cfg, s, schedule[0]);
      LostStaysLost(cfg, next, schedule[1..]);
      NotFoundStays(cfg, next, schedule[1..]);
    }
  }

  lemma LostStep(cfg: Config, s: State, a: Action)
    requires Streaming(s.task) && !s.body.cached && Step(cfg, s, a).Some?
    ensures var next := Step(cfg, s, a).value;
      && Streaming(next.task) && !next.body.cached && |next.body.readers| >= |s.body.readers|
      && (forall r :: |s.body.readers| <= r < |next.body.readers| ==> next.body.readers[r] == Returned(NotFound))
  {
  }

  lemma {:induction false} NotFoundStays(cfg: Config, s: State, schedule: seq<Action>)
    requires Exec(cfg, s, schedule).Some?
    ensures var end := Exec(cfg, s, schedule).value;
      && |end.body.readers| >= |s.body.readers|
      && (forall r :: 0 <= r < |s.body.readers| && s.body.readers[r] == Returned(NotFound) ==>
            end.body.readers[r] == Returned(NotFound))
    decreases |schedule|
  {
    if schedule != [] {
      NotFoundStep(cfg, s, schedule[0]);
      NotFoundStays(cfg, Step(cfg, s, schedule[0]).value, schedule[1..]);
    }
  }

  lemma NotFoundStep(cfg: Config, s: State, a: Action)
    requires Step(cfg, s, a).Some?
    ensures var next := Step(cfg, s, a).value;
      && |next.body.readers| >= |s.body.readers|
      && (forall r :: 0 <= r < |s.body.readers| && s.body.readers[r] == Returned(NotFound) ==>
            next.body.readers[r] == Returned(NotFound))
  {
    if a.OnBody? {
      NotFoundBodyStep(s.body, a.action);
    } else {
      assert Step(cfg, s, a).value.body.readers == s.body.readers;
    }
  }

  lemma NotFoundBodyStep(b: Body, a: BodyAction)
    requires BodyStep(b, a).Some?
    ensures var next := BodyStep(b, a).value;
      && |next.readers| >= |b.readers|
      && (forall r :: 0 <= r < |b.readers| && b.readers[r] == Returned(NotFound) ==>
            next.readers[r] == Returned(NotFound))
  {
    if a.PollStream? {
      PollEffect(b, a.reader);
      assert !b.readers[a.reader].Returned?;
    }
  }

  /**
   Once the handle was dropped or evicted, the body was opened as a whole, or a chunk read met the end or
   an error, every later read fails at once, whatever else happens; and nothing else has that effect.
   */
  lemma LaterReadsFail(cfg: Config, s: State, a: BodyAction, rest: seq<Action>)
    requires Streaming(s.task) && BodyStep(s.body, a).Some? && s.body.cached
    requires Exec(cfg, s.(body := BodyStep(s.body, a).value), rest).Some?
    ensures a.PollStream? ==> a.reader < |BodyStep(s.body, a).value.readers|
    ensures var next := BodyStep(s.body, a).value; var end := Exec(cfg, s.(body := next), rest).value;
      if LosesHandle(s.body, a) then
        forall r :: |next.readers| <= r < |end.body.readers| ==> end.body.readers[r] == Returned(NotFound)
      else next.cached
  {
    WhenHandleIsLost(s.body, a);
    if LosesHandle(s.body, a) {
      LostStaysLost(cfg, s.(body := BodyStep(s.body, a).value), rest);
    }
  }

  lemma {:induction false} SilentWithoutListener(cfg: Config, s: State, rest: seq<Action>)
    requires Streaming(s.task) && s.body.progress.None? && Exec(cfg, s, rest).Some?
    ensures Exec(cfg, s, rest).value.body.events == s.body.events
    decreases |rest|
  {
    if rest != [] {
      if rest[0].OnBody? {
        SilentWithoutState(s.body, rest[0].action);
      }
      SilentWithoutListener(cfg, Step(cfg, s, rest[0]).value, rest[1..]);
    }
  }

  /** Dropping the handle ends all reporting, whatever reads are still under way or come later. */
  lemma DropSilences(cfg: Config, s: State, rest: seq<Action>)
    requires Streaming(s.task) && Exec(cfg, s, [OnBody(DropHandle)] + rest).Some?
    ensures Exec(cfg, s, [OnBody(DropHandle)] + rest).value.body.events == s.body.events
  {
    var dropped := Step(cfg, s, OnBody(DropHandle)).value;
    ExecCons(cfg, s, [OnBody(DropHandle)] + rest, dropped);
    assert ([OnBody(DropHandle)] + rest)[1..] == rest;
    SilentWithoutListener(cfg, dropped, rest);
  }

  // ----- Runs in which a failure goes unreported -----

  predicate Quiescent(s: State) {
    s.task.Settled? && AllReturned(s.body) && s.body.holder.None?
  }

  /** A request with a listener whose response is streamed with the given body. */
  function Streamed(body: seq<BodyItem>): Config {
    Config(true, true, true, "GET", false, Some(ResponseHead(200, None)), body)
  }

  const BEFORE_BODY: seq<Event> := [Start, Sent, Headers(None)]

  function StoredBody(body: seq<BodyItem>): Body {
    Body(body, [], true, None, Some(0), None, [], [], BEFORE_BODY)
  }

  function AfterSettling(b: Body): State {
    State(Settled(StreamedBody), false, false, b)
  }

  const SETTLES: seq<Action> := [PollRequest, PollRequest, SettlePromise]

  lemma ExecCons(cfg: Config, s: State, schedule: seq<Action>, next: State)
    requires schedule != [] && Step(cfg, s, schedule[0]) == Some(next)
    ensures Exec(cfg, s, schedule) == Exec(cfg, next, schedule[1..])
  {
  }

  /** The request is sent, the headers are seen, the stream is stored and the promise settles. */
  lemma StreamedIsStored(body: seq<BodyItem>, rest: seq<Action>)
    ensures Exec(Streamed(body), Init(Streamed(body)), SETTLES + rest)
         == Exec(Streamed(body), AfterSettling(StoredBody(body)), rest)
  {
    var cfg, schedule := Streamed(body), SETTLES + rest;
    var sent := Init(cfg).(task := AwaitingSend, body := Init(cfg).body.(events := [Start, Sent]));
    var stored := State(Settling(StreamedBody), true, false, StoredBody(body));
    assert MethodSupported(cfg);
    assert [] + [Start, Sent] == sent.body.events;
    ExecCons(cfg, Init(cfg), schedule, sent);
    HeadersAreSeen(body, sent, stored);
    ExecCons(cfg, sent, schedule[1..], stored);
    ExecCons(cfg, stored, schedule[2..], AfterSettling(StoredBody(body)));
    assert schedule[1..][1..] == schedule[2..] && schedule[2..][1..] == rest;
  }

  lemma HeadersAreSeen(body: seq<BodyItem>, sent: State, stored: State)
    requires sent == State(AwaitingSend, true, false, Init(Streamed(body)).body.(events := [Start, Sent]))
    requires stored == State(Settling(StreamedBody), true, false, StoredBody(body))
    ensures PollSend(Streamed(body), sent) == stored
  {
    assert Lower("GET")[0] == 'g' && "head"[0] == 'h';
    assert sent.body.events + [Headers(None)] == BEFORE_BODY;
  }

  lemma BodyMoves(cfg: Config, b: Body, a: BodyAction, next: Body, rest: seq<Action>)
    requires BodyStep(b, a) == Some(next)
    ensures Exec(cfg, AfterSettling(b), [OnBody(a)] + rest) == Exec(cfg, AfterSettling(next), rest)
  {
    ExecCons(cfg, AfterSettling(b), [OnBody(a)] + rest, AfterSettling(next));
  }

  lemma AddsReader(b: Body, a: BodyAction, readers: seq<Reader>)
    requires (a.OpenChunk? || a.OpenAll?) && b.cached
    requires readers == b.readers + [if a.OpenAll? then WaitingForAll else WaitingForChunk]
    ensures BodyStep(b, a) == Some(b.(readers := readers, cached := a.OpenChunk?))
  {
  }

  lemma TakesLock(b: Body, r: nat, readers: seq<Reader>, lockOrder: seq<nat>)
    requires r < |b.readers| && b.holder.None? && (b.readers[r].WaitingForChunk? || b.readers[r].WaitingForAll?)
    requires readers == b.readers[r := if b.readers[r].WaitingForAll? then PollingAll([]) else PollingChunk]
    requires lockOrder == b.lockOrder + [r]
    ensures BodyStep(b, Lock(r)) == Some(b.(holder := Some(r), lockOrder := lockOrder, readers := readers))
  {
  }

  const READ_ALL: seq<Action> := [OnBody(OpenAll), OnBody(Lock(0)), OnBody(PollStream(0))]

  /**
   A streamed body that breaks while it is read whole: everything has come to rest, yet neither done
   nor error was reported and the event state is still stored.
   */
  lemma ReadAllErrorIsSilent()
    ensures var cfg := Streamed([ChunkError]); var end := Exec(cfg, Init(cfg), SETTLES + READ_ALL);
      && end.Some? && Quiescent(end.value)
      && end.value.body.readers == [Returned(ReadAllFailed([]))]
      && end.value.body.events == BEFORE_BODY
      && end.value.body.progress == Some(0)
  {
    var cfg, b0 := Streamed([ChunkError]), StoredBody([ChunkError]);
    var b1 := b0.(readers := [WaitingForAll], cached := false);
    var b2 := b1.(readers := [PollingAll([])], holder := Some(0), lockOrder := [0]);
    var b3 := b2.(readers := [Returned(ReadAllFailed([]))], holder := None, stream := [], taken := [ChunkError]);
    StreamedIsStored([ChunkError], READ_ALL);
    AddsReader(b0, OpenAll, b1.readers);
    TakesLock(b1, 0, b2.readers, b2.lockOrder);
    assert BodyStep(b2, PollStream(0)) == Some(b3) by {
      assert b2.readers[0 := Returned(ReadAllFailed([]))] == b3.readers;
      assert b2.stream[1..] == [] && b2.taken + [ChunkError] == b3.taken;
    }
    var read := [OnBody(PollStream(0))] + [];
    BodyMoves(cfg, b0, OpenAll, b1, [OnBody(Lock(0))] + read);
    BodyMoves(cfg, b1, Lock(0), b2, read);
    BodyMoves(cfg, b2, PollStream(0), b3, []);
    assert READ_ALL == [OnBody(OpenAll)] + ([OnBody(Lock(0))] + read);
  }

  /** A chunk reader waits while the body is read whole and breaks after its first chunk, and then reads on. */
  const READ_ON: seq<Action> := [OnBody(Lock(0)), OnBody(PollStream(0))]

  const READ_ALL_FIRST: seq<Action> :=
    [OnBody(OpenChunk), OnBody(OpenAll), OnBody(Lock(1)), OnBody(PollStream(1)), OnBody(PollStream(1))]

  function LateBreak(): seq<BodyItem> {
    [Chunk([1]), ChunkError]
  }

  function BrokenWhileWaiting(): Body {
    Body([], LateBreak(), false, None, Some(1), None,
         [WaitingForChunk, Returned(ReadAllFailed([1]))], [1], BEFORE_BODY + [Progress(1, None)])
  }

  const ONE: Bytes := [1]

  /** The states in which the read of the whole body has the lock, and has taken its chunk. */
  function HoldsLock(): Body {
    Body(LateBreak(), [], false, None, Some(0), Some(1), [WaitingForChunk, PollingAll([])], [1], BEFORE_BODY)
  }

  function TookOne(): Body {
    Body([ChunkError], [Chunk(ONE)], false, None, Some(1), Some(1),
         [WaitingForChunk, PollingAll([ONE])], [1], BEFORE_BODY + [Progress(1, None)])
  }

  lemma GetsLock(rest: seq<Action>)
    ensures Exec(Streamed(LateBreak()), AfterSettling(StoredBody(LateBreak())),
                 [OnBody(OpenChunk)] + ([OnBody(OpenAll)] + ([OnBody(Lock(1))] + rest)))
         == Exec(Streamed(LateBreak()), AfterSettling(HoldsLock()), rest)
  {
    var cfg, b0 := Streamed(LateBreak()), StoredBody(LateBreak());
    var b1 := b0.(readers := [WaitingForChunk]);
    var b2 := b1.(readers := [WaitingForChunk, WaitingForAll], cached := false);
    AddsReader(b0, OpenChunk, b1.readers);
    AddsReader(b1, OpenAll, b2.readers);
    TakesLock(b2, 1, HoldsLock().readers, HoldsLock().lockOrder);
    BodyMoves(cfg, b0, OpenChunk, b1, [OnBody(OpenAll)] + ([OnBody(Lock(1))] + rest));
    BodyMoves(cfg, b1, OpenAll, b2, [OnBody(Lock(1))] + rest);
    BodyMoves(cfg, b2, Lock(1), HoldsLock(), rest);
  }

  lemma TakesOne()
    ensures BodyStep(HoldsLock(), PollStream(1)) == Some(TookOne())
  {
    var none: seq<Bytes> := [];
    assert none + [ONE] == [ONE];
    assert HoldsLock().readers[1 := PollingAll([ONE])] == TookOne().readers;
    assert HoldsLock().stream[1..] == TookOne().stream && HoldsLock().taken + [Chunk(ONE)] == TookOne().taken;
  }

  lemma ThenFails()
    ensures BodyStep(TookOne(), PollStream(1)) == Some(BrokenWhileWaiting())
  {
    assert Sequences.Flatten([ONE]) == ONE + Sequences.Flatten<bv8>([]) == ONE;
    assert TookOne().readers[1 := Returned(ReadAllFailed(ONE))] == BrokenWhileWaiting().readers;
    assert TookOne().stream[1..] == [] && TookOne().taken + [ChunkError] == LateBreak();
  }

  /** The read of the whole body fails after one chunk, unreported. */
  lemma BreaksWhileWaiting(rest: seq<Action>)
    ensures Exec(Streamed(LateBreak()), AfterSettling(StoredBody(LateBreak())), READ_ALL_FIRST + rest)
         == Exec(Streamed(LateBreak()), AfterSettling(BrokenWhileWaiting()), rest)
  {
    var polls := [OnBody(PollStream(1))] + ([OnBody(PollStream(1))] + rest);
    GetsLock(polls);
    BreaksAtSecondPoll(rest);
    ReadAllFirstUnfolds(rest);
  }

  lemma BreaksAtSecondPoll(rest: seq<Action>)
    ensures Exec(Streamed(LateBreak()), AfterSettling(HoldsLock()),
                 [OnBody(PollStream(1))] + ([OnBody(PollStream(1))] + rest))
         == Exec(Streamed(LateBreak()), AfterSettling(BrokenWhileWaiting()), rest)
  {
    TakesOne();
    ThenFails();
    BodyMoves(Streamed(LateBreak()), HoldsLock(), PollStream(1), TookOne(), [OnBody(PollStream(1))] + rest);
    BodyMoves(Streamed(LateBreak()), TookOne(), PollStream(1), BrokenWhileWaiting(), rest);
  }

  lemma ReadAllFirstUnfolds(rest: seq<Action>)
    ensures READ_ALL_FIRST + rest
         == [OnBody(OpenChunk)] + ([OnBody(OpenAll)] + ([OnBody(Lock(1))]
              + ([OnBody(PollStream(1))] + ([OnBody(PollStream(1))] + rest))))
  {
  }

  /**
   The stream behind the error is at its end, so the waiting reader sees the end of the body: a request
   one of whose reads failed is reported complete and done, and no error ever.
   */
  lemma DoneAfterFailure()
    ensures var cfg := Streamed(LateBreak()); var end := Exec(cfg, Init(cfg), SETTLES + (READ_ALL_FIRST + READ_ON));
      && end.Some? && Quiescent(end.value)
      && end.value.body.readers == [Returned(EndOfBody), Returned(ReadAllFailed([1]))]
      && end.value.body.events == BEFORE_BODY + [Progress(1, None)] + [Complete(1, None), Done]
      && !FailureIsReported(end.value.body)
  {
    var cfg, b5 := Streamed(LateBreak()), BrokenWhileWaiting();
    var b6 := b5.(readers := [PollingChunk, Returned(ReadAllFailed([1]))], holder := Some(0), lockOrder := [1, 0]);
    var b7 := b6.(readers := [Returned(EndOfBody), Returned(ReadAllFailed([1]))], holder := None, progress := None,
                  events := BEFORE_BODY + [Progress(1, None)] + [Complete(1, None), Done]);
    StreamedIsStored(LateBreak(), READ_ALL_FIRST + READ_ON);
    BreaksWhileWaiting(READ_ON);
    TakesLock(b5, 0, b6.readers, b6.lockOrder);
    assert BodyStep(b6, PollStream(0)) == Some(b7) by {
      assert b6.readers[0 := Returned(EndOfBody)] == b7.readers;
    }
    BodyMoves(cfg, b5, Lock(0), b6, [OnBody(PollStream(0))] + []);
    BodyMoves(cfg, b6, PollStream(0), b7, []);
    assert READ_ON == [OnBody(Lock(0))] + ([OnBody(PollStream(0))] + []);
    assert ReadFailed(b7.readers[1]);
  }
}
