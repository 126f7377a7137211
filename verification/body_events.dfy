/** The events of a streamed body: exact running totals, one terminal event, and nothing after it. */
module BodyEvents {
  import opened Wrappers
  import opened RequestEvents
  import opened BodyStreams

  /** The running byte totals after each chunk. */
  function RunningTotals(items: seq<BodyItem>): seq<nat>
    decreases |items|
  {
    if items == [] then []
    else
      var n := |items| - 1;
      RunningTotals(items[..n]) + (if items[n].Chunk? then [|BytesOf(items)|] else [])
  }

  /** The totals that progress events reported. */
  function ReportedTotals(events: seq<Event>): seq<nat>
    decreases |events|
  {
    if events == [] then []
    else
      var n := |events| - 1;
      ReportedTotals(events[..n]) + (if events[n].Progress? then [events[n].downloaded] else [])
  }

  predicate CompleteReports(events: seq<Event>, total: nat) {
    forall i :: 0 <= i < |events| && events[i].Complete? ==> events[i].downloaded == total
  }

  /** While the event state is there, it and the events agree with what was taken from the stream. */
  predicate Tracks(taken: seq<BodyItem>, progress: Option<nat>, events: seq<Event>) {
    match progress
    case Some(d) => TracksOpen(taken, d, events)
    case None => WellOrdered(events) && ReportedTotals(events) <= RunningTotals(taken)
  }

  predicate TracksOpen(taken: seq<BodyItem>, d: nat, events: seq<Event>) {
    && d == |BytesOf(taken)|
    && (PhaseAfter(events) == InBody(d) || (PhaseAfter(events) == HeadersSeen && d == 0))
    && ReportedTotals(events) == RunningTotals(taken)
  }

  predicate EventsTrack(b: Body) {
    Tracks(b.taken, b.progress, b.events)
  }

  lemma RunningTotalsLast(all: seq<BodyItem>)
    requires all != []
    ensures var n := |all| - 1;
      RunningTotals(all) == RunningTotals(all[..n]) + (if all[n].Chunk? then [|BytesOf(all)|] else [])
  {
  }

  lemma RunningTotalsSnoc(items: seq<BodyItem>, item: BodyItem)
    ensures RunningTotals(items + [item])
         == RunningTotals(items) + (if item.Chunk? then [|BytesOf(items)| + |item.bytes|] else [])
  {
    var all := items + [item];
    RunningTotalsLast(all);
    BytesOfSnoc(items, item);
    assert all[..|all| - 1] == items;
  }

  lemma ReportedTotalsSnoc(events: seq<Event>, event: Event)
    ensures ReportedTotals(events + [event])
         == ReportedTotals(events) + (if event.Progress? then [event.downloaded] else [])
  {
  }

  lemma ProgressPhase(events: seq<Event>, d: nat, n: nat, contentLength: Option<nat>)
    requires PhaseAfter(events) == InBody(d) || (PhaseAfter(events) == HeadersSeen && d == 0)
    ensures PhaseAfter(events + [Progress(d + n, contentLength)]) == InBody(d + n)
  {
  }

  lemma ChunkTracksOpen(taken: seq<BodyItem>, d: nat, events: seq<Event>, item: BodyItem, contentLength: Option<nat>)
    requires TracksOpen(taken, d, events) && item.Chunk?
    ensures TracksOpen(taken + [item], d + |item.bytes|, events + [Progress(d + |item.bytes|, contentLength)])
  {
    var n := |item.bytes|;
    ChunkTotals(taken, d, events, item, contentLength);
    ProgressPhase(events, d, n, contentLength);
    InBodyTracksOpen(taken + [item], d + n, events + [Progress(d + n, contentLength)]);
  }

  lemma InBodyTracksOpen(taken: seq<BodyItem>, d: nat, events: seq<Event>)
    requires d == |BytesOf(taken)| && PhaseAfter(events) == InBody(d)
    requires ReportedTotals(events) == RunningTotals(taken)
    ensures TracksOpen(taken, d, events)
  {
  }

  lemma ChunkTotals(taken: seq<BodyItem>, d: nat, events: seq<Event>, item: BodyItem, contentLength: Option<nat>)
    requires d == |BytesOf(taken)| && ReportedTotals(events) == RunningTotals(taken) && item.Chunk?
    ensures d + |item.bytes| == |BytesOf(taken + [item])|
    ensures ReportedTotals(events + [Progress(d + |item.bytes|, contentLength)]) == RunningTotals(taken + [item])
  {
    RunningTotalsSnoc(taken, item);
    BytesOfSnoc(taken, item);
    ReportedTotalsSnoc(events, Progress(d + |item.bytes|, contentLength));
  }

  /** Taking a chunk reports the new total. */
  lemma ChunkTracks(b: Body)
    requires EventsTrack(b) && b.stream != [] && b.stream[0].Chunk?
    ensures EventsTrack(EmitProgress(TakeItem(b), |b.stream[0].bytes|))
  {
    if b.progress.Some? {
      ChunkTracksOpen(b.taken, b.progress.value, b.events, b.stream[0], b.contentLength);
    } else {
      RunningTotalsSnoc(b.taken, b.stream[0]);
    }
  }

  lemma ErrorItemTracks(b: Body)
    requires EventsTrack(b) && b.stream != [] && b.stream[0].ChunkError?
    ensures EventsTrack(TakeItem(b))
  {
    RunningTotalsSnoc(b.taken, b.stream[0]);
    BytesOfSnoc(b.taken, b.stream[0]);
  }

  lemma CompleteTracks(b: Body)
    requires EventsTrack(b)
    ensures EventsTrack(EmitComplete(b)) && EmitComplete(b).progress.None?
  {
    if b.progress.Some? {
      var complete := Complete(b.progress.value, b.contentLength);
      PhaseAfterSnoc(b.events, complete);
      PhaseAfterSnoc(b.events + [complete], Done);
      ReportedTotalsSnoc(b.events, complete);
      ReportedTotalsSnoc(b.events + [complete], Done);
      assert b.events + [complete] + [Done] == b.events + [complete, Done];
    }
  }

  lemma ErrorTracks(b: Body)
    requires EventsTrack(b)
    ensures EventsTrack(EmitError(b)) && EmitError(b).progress.None?
  {
  }

  /** Only these fields matter to the events. */
  lemma TracksFrame(b: Body, b': Body)
    requires EventsTrack(b)
    requires b'.taken == b.taken && b'.progress == b.progress && b'.events == b.events
    ensures EventsTrack(b')
  {
  }

  lemma PollChunkTracks(b: Body, r: nat)
    requires EventsTrack(b) && r < |b.readers|
    ensures EventsTrack(PollForChunk(b, r))
  {
    if b.stream == [] {
      CompleteTracks(b.(cached := false));
      TracksFrame(EmitComplete(b.(cached := false)), PollForChunk(b, r));
    } else if b.stream[0].Chunk? {
      ChunkTracks(b);
      TracksFrame(EmitProgress(TakeItem(b), |b.stream[0].bytes|), PollForChunk(b, r));
    } else {
      ErrorItemTracks(b);
      ErrorTracks(TakeItem(b).(cached := false));
      TracksFrame(EmitError(TakeItem(b).(cached := false)), PollForChunk(b, r));
    }
  }

  lemma PollAllTracks(b: Body, r: nat, chunks: seq<Bytes>)
    requires EventsTrack(b) && r < |b.readers|
    ensures EventsTrack(PollForAll(b, r, chunks))
  {
    if b.stream == [] {
      CompleteTracks(b);
      TracksFrame(EmitComplete(b), PollForAll(b, r, chunks));
    } else if b.stream[0].Chunk? {
      ChunkTracks(b);
      TracksFrame(EmitProgress(TakeItem(b), |b.stream[0].bytes|), PollForAll(b, r, chunks));
    } else {
      ErrorItemTracks(b);
      TracksFrame(TakeItem(b), PollForAll(b, r, chunks));
    }
  }

  lemma BodyStepTracks(b: Body, a: BodyAction)
    requires EventsTrack(b) && BodyStep(b, a).Some?
    ensures EventsTrack(BodyStep(b, a).value)
  {
    match a {
      case PollStream(r) =>
        if b.readers[r].PollingChunk? {
          PollChunkTracks(b, r);
        } else {
          PollAllTracks(b, r, b.readers[r].chunks);
        }
      case DropHandle => DropTracks(b);
      case _ => TracksFrame(b, BodyStep(b, a).value);
    }
  }

  lemma DropTracks(b: Body)
    requires EventsTrack(b)
    ensures EventsTrack(b.(cached := false, progress := None))
  {
  }

  /** A completion is reported only at the end of the stream, with the length of the whole body. */
  lemma BodyStepCompletes(b: Body, body: seq<BodyItem>, a: BodyAction)
    requires BodyInv(b, body) && EventsTrack(b) && BodyStep(b, a).Some?
    requires CompleteReports(b.events, |BytesOf(body)|)
    ensures CompleteReports(BodyStep(b, a).value.events, |BytesOf(body)|)
  {
    assert b.stream == [] ==> b.taken == body;
    if a.PollStream? {
      PollCompletes(b, |BytesOf(body)|, a.reader);
    }
  }

  lemma PollCompletes(b: Body, total: nat, r: nat)
    requires CompleteReports(b.events, total) && Poll(b, r).Some?
    requires b.stream == [] && b.progress.Some? ==> b.progress.value == total
    ensures CompleteReports(Poll(b, r).value.events, total)
  {
  }

  // ----- Readers do not wait forever -----

  function ReaderWork(reader: Reader): nat {
    match reader
    case WaitingForChunk => 2
    case WaitingForAll => 2
    case PollingChunk => 1
    case PollingAll(_) => 1
    case Returned(_) => 0
  }

  function ReadersWork(readers: seq<Reader>): nat {
    if readers == [] then 0 else ReaderWork(readers[0]) + ReadersWork(readers[1..])
  }

  lemma {:induction false} ReadersWorkUpdate(readers: seq<Reader>, r: nat, reader: Reader)
    requires r < |readers|
    ensures ReadersWork(readers[r := reader]) + ReaderWork(readers[r])
         == ReadersWork(readers) + ReaderWork(reader)
  {
    if r == 0 {
      assert readers[0 := reader][1..] == readers[1..];
    } else {
      assert readers[r := reader][1..] == readers[1..][r - 1 := reader];
      ReadersWorkUpdate(readers[1..], r - 1, reader);
    }
  }

  predicate AllReturned(b: Body) {
    forall r :: 0 <= r < |b.readers| ==> b.readers[r].Returned?
  }

  /** The holder is one of the readers, and it is polling. */
  predicate HolderPolls(b: Body) {
    b.holder.Some? ==>
      b.holder.value < |b.readers|
      && (b.readers[b.holder.value].PollingChunk? || b.readers[b.holder.value].PollingAll?)
  }

  lemma BodyStepKeepsHolder(b: Body, a: BodyAction)
    requires HolderPolls(b) && BodyStep(b, a).Some?
    ensures HolderPolls(BodyStep(b, a).value)
  {
  }

  /** Some reader can go on whenever one has not returned, and going on uses up reading work. */
  lemma ReadersProgress(b: Body, body: seq<BodyItem>) returns (a: BodyAction)
    requires BodyInv(b, body) && HolderPolls(b) && !AllReturned(b)
    ensures (a.Lock? || a.PollStream?) && BodyStep(b, a).Some?
    ensures var next := BodyStep(b, a).value;
      |next.stream| + ReadersWork(next.readers) < |b.stream| + ReadersWork(b.readers)
  {
    var r :| 0 <= r < |b.readers| && !b.readers[r].Returned?;
    if b.holder.Some? {
      r := b.holder.value;
      a := PollStream(r);
      PollEffect(b, r);
    } else {
      a := Lock(r);
    }
    ReadersWorkUpdate(b.readers, r, BodyStep(b, a).value.readers[r]);
  }
}
