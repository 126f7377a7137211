/** Which reads report what: the terminal event of a streamed body, its errors and its progress. */
module BodyReports {
  import opened Wrappers
  import opened RequestEvents
  import opened BodyStreams
  import opened BodyEvents

  /** The read claims the event state: it saw the end of the body, or failed on a chunk. */
  predicate Claims(reader: Reader) {
    reader.Returned?
    && (reader.outcome.EndOfBody? || reader.outcome.WholeBody? || reader.outcome.ChunkFailed?)
  }

  predicate Claimed(readers: seq<Reader>) {
    exists r :: 0 <= r < |readers| && Claims(readers[r])
  }

  predicate Reported(events: seq<Event>) {
    Done in events || Error in events
  }

  // ----- One poll -----

  /** The poll meets an error and belongs to a read of one chunk. */
  predicate FailsOnChunk(b: Body, r: nat) {
    r < |b.readers| && b.readers[r].PollingChunk? && b.stream != [] && b.stream[0].ChunkError?
  }

  function PollEvents(b: Body, r: nat): seq<Event> {
    if b.progress.None? then []
    else if b.stream == [] then [Complete(b.progress.value, b.contentLength), Done]
    else if b.stream[0].Chunk? then [Progress(b.progress.value + |b.stream[0].bytes|, b.contentLength)]
    else if FailsOnChunk(b, r) then [Error]
    else []
  }

  lemma PollReports(b: Body, r: nat)
    requires Poll(b, r).Some?
    ensures var next := Poll(b, r).value;
      && next.events == b.events + PollEvents(b, r)
      && (next.progress.None? <==> b.progress.None? || b.stream == [] || FailsOnChunk(b, r))
  {
  }

  lemma PollClaims(b: Body, r: nat)
    requires Poll(b, r).Some?
    ensures r < |b.readers| && r < |Poll(b, r).value.readers|
    ensures var reader := Poll(b, r).value.readers[r];
      && (Claims(reader) <==> b.stream == [] || FailsOnChunk(b, r))
      && (reader == Returned(ChunkFailed) <==> FailsOnChunk(b, r))
      && !Claims(b.readers[r]) && b.readers[r] != Returned(ChunkFailed)
  {
  }

  // ----- Terminal events -----

  /** The event state is gone, a read has claimed it, and a terminal event was reported: all or none. */
  predicate ClaimsTrack(b: Body) {
    (b.progress.None? <==> Claimed(b.readers)) && (Claimed(b.readers) <==> Reported(b.events))
  }

  lemma ClaimedUpdate(readers: seq<Reader>, r: nat, reader: Reader)
    requires r < |readers| && !Claims(readers[r])
    ensures Claimed(readers[r := reader]) <==> Claimed(readers) || Claims(reader)
  {
    var after := readers[r := reader];
    assert after[r] == reader;
    assert forall i :: 0 <= i < |readers| && i != r ==> after[i] == readers[i];
  }

  lemma ClaimedSnoc(readers: seq<Reader>, reader: Reader)
    ensures Claimed(readers + [reader]) <==> Claimed(readers) || Claims(reader)
  {
    var after := readers + [reader];
    assert after[|readers|] == reader;
    assert forall i :: 0 <= i < |readers| ==> after[i] == readers[i];
  }

  lemma PollTracksClaims(b: Body, r: nat)
    requires ClaimsTrack(b) && Poll(b, r).Some?
    ensures ClaimsTrack(Poll(b, r).value)
  {
    var next := Poll(b, r).value;
    PollEffect(b, r);
    PollReports(b, r);
    PollClaims(b, r);
    ClaimedUpdate(b.readers, r, next.readers[r]);
    assert Reported(PollEvents(b, r)) <==> b.progress.Some? && (b.stream == [] || FailsOnChunk(b, r)) by {
      assert [Complete(0, None), Done][1] == Done;
    }
  }

  /** Dropping the handle apart, every step keeps the three together. */
  lemma BodyStepTracksClaims(b: Body, a: BodyAction)
    requires ClaimsTrack(b) && BodyStep(b, a).Some? && a != DropHandle
    ensures ClaimsTrack(BodyStep(b, a).value)
  {
    var next := BodyStep(b, a).value;
    match a {
      case OpenChunk => ClaimedSnoc(b.readers, next.readers[|b.readers|]);
      case OpenAll => ClaimedSnoc(b.readers, next.readers[|b.readers|]);
      case Lock(r) => ClaimedUpdate(b.readers, r, next.readers[r]);
      case PollStream(r) => PollTracksClaims(b, r);
      case EvictHandle =>
    }
  }

  // ----- Errors -----

  /** An error was reported exactly if a read of one chunk failed. */
  predicate ErrorsTrack(b: Body) {
    Error in b.events <==> Returned(ChunkFailed) in b.readers
  }

  /** A chunk read that fails after the event state was claimed is not the first one to fail. */
  lemma LaterFailure(b: Body, r: nat)
    requires ClaimsTrack(b) && EndMeansEnd(b) && FailsOnChunk(b, r) && b.progress.None?
    ensures Returned(ChunkFailed) in b.readers
  {
    var i :| 0 <= i < |b.readers| && Claims(b.readers[i]);
    assert !SawEnd(b.readers[i]);
  }

  lemma InUpdate<T>(items: seq<T>, i: nat, item: T, x: T)
    requires i < |items| && items[i] != x
    ensures x in items[i := item] <==> x in items || item == x
  {
    var after := items[i := item];
    assert after[i] == item;
    assert forall j :: 0 <= j < |items| && j != i ==> after[j] == items[j];
  }

  lemma PollTracksErrors(b: Body, r: nat)
    requires ClaimsTrack(b) && EndMeansEnd(b) && ErrorsTrack(b) && Poll(b, r).Some?
    ensures ErrorsTrack(Poll(b, r).value)
  {
    var next := Poll(b, r).value;
    PollEffect(b, r);
    PollReports(b, r);
    PollClaims(b, r);
    InUpdate(b.readers, r, next.readers[r], Returned(ChunkFailed));
    if FailsOnChunk(b, r) && b.progress.None? {
      LaterFailure(b, r);
    }
  }

  lemma BodyStepTracksErrors(b: Body, a: BodyAction)
    requires ClaimsTrack(b) && EndMeansEnd(b) && ErrorsTrack(b) && BodyStep(b, a).Some? && a != DropHandle
    ensures ErrorsTrack(BodyStep(b, a).value)
  {
    match a {
      case Lock(r) => InUpdate(b.readers, r, BodyStep(b, a).value.readers[r], Returned(ChunkFailed));
      case PollStream(r) => PollTracksErrors(b, r);
      case _ =>
    }
  }

  // ----- Progress -----

  predicate TookChunk(taken: seq<BodyItem>) {
    exists i :: 0 <= i < |taken| && taken[i].Chunk?
  }

  /** There are running totals exactly if a chunk was taken. */
  lemma {:induction false} TotalsOfChunks(taken: seq<BodyItem>)
    ensures RunningTotals(taken) != [] <==> TookChunk(taken)
    decreases |taken|
  {
    if taken != [] {
      var n := |taken| - 1;
      TotalsOfChunks(taken[..n]);
      assert forall i :: 0 <= i < n ==> taken[..n][i] == taken[i];
    }
  }

  /** The totals reported are those of all that was taken before the error at `n`. */
  predicate ReportedBefore(b: Body, n: nat) {
    n < |b.taken| && b.taken[n].ChunkError? && ReportedTotals(b.events) == RunningTotals(b.taken[..n])
  }

  /** Progress covers everything taken, or everything taken before the error that was reported. */
  ghost predicate ProgressTracks(b: Body) {
    if Error in b.events then exists n: nat :: ReportedBefore(b, n)
    else ReportedTotals(b.events) == RunningTotals(b.taken) && (b.progress.None? ==> b.stream == [])
  }

  lemma ReportedBeforeStays(b: Body, next: Body, n: nat)
    requires ReportedBefore(b, n) && b.taken <= next.taken && next.events == b.events
    ensures ReportedBefore(next, n)
  {
    assert next.taken[..n] == b.taken[..n];
  }

  /** The failure that claims the event state: what came before it was reported. */
  lemma FirstFailure(b: Body, r: nat)
    requires TracksOpen(b.taken, b.progress.GetOr(0), b.events) && b.progress.Some?
    requires Poll(b, r).Some? && FailsOnChunk(b, r)
    ensures Error in Poll(b, r).value.events && ReportedBefore(Poll(b, r).value, |b.taken|)
  {
    PollEffect(b, r);
    PollReports(b, r);
    ReportedTotalsSnoc(b.events, Error);
    assert Poll(b, r).value.taken[..|b.taken|] == b.taken;
  }

  lemma PollTracksProgress(b: Body, r: nat)
    requires ClaimsTrack(b) && ProgressTracks(b) && EventsTrack(b) && Poll(b, r).Some?
    ensures ProgressTracks(Poll(b, r).value)
  {
    if Error in b.events {
      PollAfterError(b, r);
    } else if FailsOnChunk(b, r) && b.progress.Some? {
      FirstFailure(b, r);
    } else {
      PollWithoutError(b, r);
    }
  }

  lemma PollAfterError(b: Body, r: nat)
    requires ClaimsTrack(b) && ProgressTracks(b) && Error in b.events && Poll(b, r).Some?
    ensures ProgressTracks(Poll(b, r).value)
  {
    PollEffect(b, r);
    PollReports(b, r);
    var n: nat :| ReportedBefore(b, n);
    ReportedBeforeStays(b, Poll(b, r).value, n);
  }

  lemma PollWithoutError(b: Body, r: nat)
    requires ProgressTracks(b) && EventsTrack(b) && Error !in b.events && Poll(b, r).Some?
    requires !(FailsOnChunk(b, r) && b.progress.Some?)
    ensures ProgressTracks(Poll(b, r).value)
  {
    PollReports(b, r);
    assert Error !in Poll(b, r).value.events;
    if b.stream == [] {
      PollAtEnd(b, r);
    } else {
      BodyStepTracks(b, PollStream(r));
    }
  }

  /** Completion and done change no totals. */
  lemma PollAtEnd(b: Body, r: nat)
    requires Poll(b, r).Some? && b.stream == []
    ensures ReportedTotals(Poll(b, r).value.events) == ReportedTotals(b.events)
    ensures Poll(b, r).value.taken == b.taken
  {
    PollEffect(b, r);
    PollReports(b, r);
    if b.progress.Some? {
      var complete := Complete(b.progress.value, b.contentLength);
      ReportedTotalsSnoc(b.events, complete);
      ReportedTotalsSnoc(b.events + [complete], Done);
      assert b.events + [complete] + [Done] == b.events + PollEvents(b, r);
    }
  }

  lemma BodyStepTracksProgress(b: Body, a: BodyAction)
    requires ClaimsTrack(b) && ProgressTracks(b) && EventsTrack(b) && BodyStep(b, a).Some? && a != DropHandle
    ensures ProgressTracks(BodyStep(b, a).value)
  {
    if a.PollStream? {
      PollTracksProgress(b, a.reader);
    } else if Error in b.events {
      var n: nat :| ReportedBefore(b, n);
      assert ReportedBefore(BodyStep(b, a).value, n);
    }
  }

  /** A body that was reported done has had all its chunks reported; nothing is reported afterwards. */
  predicate DoneMeansAll(b: Body, body: seq<BodyItem>) {
    Done in b.events ==> b.progress.None? && ReportedTotals(b.events) == RunningTotals(body)
  }

  lemma PollKeepsDone(b: Body, body: seq<BodyItem>, r: nat)
    requires DoneMeansAll(b, body) && EventsTrack(b) && b.taken + b.stream == body && Poll(b, r).Some?
    ensures DoneMeansAll(Poll(b, r).value, body)
  {
    PollReports(b, r);
    if b.progress.Some? && b.stream == [] {
      assert b.taken == body;
      PollAtEnd(b, r);
    } else {
      assert Done !in PollEvents(b, r);
      if Done in b.events {
        assert Poll(b, r).value.events == b.events;
      }
    }
  }

  lemma BodyStepKeepsDone(b: Body, body: seq<BodyItem>, a: BodyAction)
    requires DoneMeansAll(b, body) && EventsTrack(b) && BodyInv(b, body) && BodyStep(b, a).Some?
    ensures DoneMeansAll(BodyStep(b, a).value, body)
  {
    match a {
      case PollStream(r) => PollKeepsDone(b, body, r);
      case _ => OtherStepsReportNothing(b, a);
    }
  }

  lemma OtherStepsReportNothing(b: Body, a: BodyAction)
    requires BodyStep(b, a).Some? && !a.PollStream?
    ensures var next := BodyStep(b, a).value;
      next.events == b.events && (b.progress.None? ==> next.progress.None?)
  {
  }
}
