/**
 The body-handle registry as the code updates it: the stream cache, the event states, the counter of
 handles and the loop of `read_body_all`. Calls run one at a time here. Each of them does to the registry
 what the steps of one reader in `BodyStreams`, undisturbed by others, do to the body behind the handle.
 */
module BodyRegistry {
  import opened Wrappers
  import opened Sequences
  import opened RequestEvents
  import opened BodyStreams
  import opened ConnectionRegistry

  datatype ReadError = HandleNotFound | StreamFailed

  datatype EventState = EventState(downloaded: nat, contentLength: Option<nat>)

  /** `log` is what the event sinks received, tagged with the handle. */
  datatype Store = Store(
    streams: map<nat, seq<BodyItem>>,
    eventStates: map<nat, EventState>,
    log: seq<(nat, Event)>)

  function Tagged(handle: nat, events: seq<Event>): seq<(nat, Event)> {
    if events == [] then [] else [(handle, events[0])] + Tagged(handle, events[1..])
  }

  /** The body behind a handle before a call: no reader and no event of its own yet. */
  function BodyOf(store: Store, handle: nat): Body {
    var state := if handle in store.eventStates then Some(store.eventStates[handle]) else None;
    Body(
      if handle in store.streams then store.streams[handle] else [],
      [],
      handle in store.streams,
      if state.Some? then state.value.contentLength else None,
      if state.Some? then Some(state.value.downloaded) else None,
      None, [], [], [])
  }

  /** The store after a call that has turned the body behind the handle into `b`. */
  function Updated(store: Store, handle: nat, b: Body): Store
  {
    Store(
      if b.cached then store.streams[handle := b.stream] else store.streams - {handle},
      match b.progress
      case Some(d) =>
        if handle in store.eventStates then
          store.eventStates[handle := store.eventStates[handle].(downloaded := d)]
        else store.eventStates
      case None => store.eventStates - {handle},
      store.log + Tagged(handle, b.events))
  }

  // ----- The steps of one reader -----

  function Run(b: Body, actions: seq<BodyAction>): Option<Body>
    decreases |actions|
  {
    if actions == [] then Some(b)
    else
      match BodyStep(b, actions[0])
      case Some(next) => Run(next, actions[1..])
      case None => None
  }

  function Polls(n: nat): seq<BodyAction> {
    seq(n, _ => PollStream(0))
  }

  /** The number of items before the first error of a stream. */
  function ReadableItems(stream: seq<BodyItem>): (n: nat)
    ensures n <= |stream|
    ensures forall i :: 0 <= i < n ==> stream[i].Chunk?
    ensures n < |stream| ==> stream[n].ChunkError?
  {
    if stream == [] || stream[0].ChunkError? then 0 else 1 + ReadableItems(stream[1..])
  }

  function ReadingChunk(b: Body): seq<BodyAction> {
    if b.cached then [OpenChunk, Lock(0), PollStream(0)] else [OpenChunk]
  }

  /** A read of the whole body polls once for every item up to the first error, and once more. */
  function ReadingAll(b: Body): seq<BodyAction> {
    if b.cached then [OpenAll, Lock(0)] + Polls(ReadableItems(b.stream) + 1) else [OpenAll]
  }

  lemma {:induction false} RunConcat(b: Body, first: seq<BodyAction>, second: seq<BodyAction>)
    requires Run(b, first).Some?
    ensures Run(b, first + second) == Run(Run(b, first).value, second)
    decreases |first|
  {
    if first == [] {
      assert first + second == second;
    } else {
      assert (first + second)[1..] == first[1..] + second;
      RunConcat(BodyStep(b, first[0]).value, first[1..], second);
    }
  }

  lemma RunInTurn(b: Body, b1: Body, b2: Body, first: seq<BodyAction>, second: seq<BodyAction>, third: seq<BodyAction>)
    requires Run(b, first) == Some(b1) && Run(b1, second) == Some(b2)
    ensures Run(b, first + (second + third)) == Run(b2, third)
  {
    RunConcat(b, first, second + third);
    RunConcat(b1, second, third);
  }

  lemma RunOne(b: Body, a: BodyAction)
    ensures Run(b, [a]) == BodyStep(b, a)
  {
    match BodyStep(b, a)
    case Some(next) => assert Run(next, [a][1..]) == Some(next);
    case None =>
  }

  /** The body with one reader, which holds the lock. */
  function WithReader(b: Body, reader: Reader, cached: bool): Body {
    b.(readers := [reader], holder := Some(0), lockOrder := [0], cached := cached)
  }

  lemma OpenAndLock(b: Body, open: BodyAction, reader: Reader)
    requires b.cached && b.readers == [] && b.holder.None? && b.lockOrder == []
    requires (open.OpenChunk? && reader == PollingChunk) || (open.OpenAll? && reader == PollingAll([]))
    ensures Run(b, [open, Lock(0)]) == Some(WithReader(b, reader, open.OpenChunk?))
  {
    var waiting := if open.OpenChunk? then WaitingForChunk else WaitingForAll;
    var queued := b.(readers := [waiting], cached := open.OpenChunk?);
    assert b.readers + [waiting] == [waiting];
    assert BodyStep(b, open) == Some(queued);
    assert [waiting][0 := reader] == [reader] && b.lockOrder + [0] == [0];
    assert BodyStep(queued, Lock(0)) == Some(WithReader(b, reader, open.OpenChunk?));
    RunOne(b, open);
    RunOne(queued, Lock(0));
    RunConcat(b, [open], [Lock(0)]);
    assert [open] + [Lock(0)] == [open, Lock(0)];
  }

  lemma ReadingChunkRuns(b: Body)
    requires b.readers == [] && b.holder.None? && b.lockOrder == []
    ensures Run(b, ReadingChunk(b))
         == if b.cached then Some(PollForChunk(WithReader(b, PollingChunk, true), 0))
            else Some(b.(readers := [Returned(NotFound)]))
  {
    if b.cached {
      OpenAndLock(b, OpenChunk, PollingChunk);
      RunConcat(b, [OpenChunk, Lock(0)], [PollStream(0)]);
      RunOne(WithReader(b, PollingChunk, true), PollStream(0));
      assert [OpenChunk, Lock(0)] + [PollStream(0)] == [OpenChunk, Lock(0), PollStream(0)];
    } else {
      RunOne(b, OpenChunk);
      assert b.readers + [Returned(NotFound)] == [Returned(NotFound)];
    }
  }

  // ----- Reading the whole body, poll by poll -----

  function ChunksOf(items: seq<BodyItem>): seq<Bytes>
    requires forall i :: 0 <= i < |items| ==> items[i].Chunk?
  {
    seq(|items|, i requires 0 <= i < |items| => items[i].bytes)
  }

  function ProgressAfter(progress: Option<nat>, n: nat): Option<nat> {
    match progress case Some(d) => Some(d + n) case None => None
  }

  /** The progress events of reading `items`, with exact totals. */
  function ProgressEvents(items: seq<BodyItem>, progress: Option<nat>, contentLength: Option<nat>): seq<Event>
    decreases |items|
  {
    if items == [] || progress.None? then []
    else
      ProgressEvents(items[..|items| - 1], progress, contentLength)
      + [Progress(progress.value + |BytesOf(items)|, contentLength)]
  }

  lemma ProgressEventsSnoc(items: seq<BodyItem>, item: BodyItem, progress: Option<nat>, contentLength: Option<nat>)
    ensures ProgressEvents(items + [item], progress, contentLength)
         == ProgressEvents(items, progress, contentLength)
          + if progress.None? then [] else [Progress(progress.value + |BytesOf(items + [item])|, contentLength)]
  {
    assert (items + [item])[..|items + [item]| - 1] == items;
  }

  /** A reader of the whole body that has taken `i` chunks. */
  function Taken(b: Body, i: nat): Body
    requires i <= ReadableItems(b.stream)
  {
    var items := b.stream[..i];
    WithReader(b, PollingAll(ChunksOf(items)), false).(
      stream := b.stream[i..],
      taken := items,
      progress := ProgressAfter(b.progress, |BytesOf(items)|),
      events := ProgressEvents(items, b.progress, b.contentLength))
  }

  /** A poll that yields a chunk, to an undisturbed reader of the whole body. */
  lemma PollYieldsChunk(b: Body, chunks: seq<Bytes>, item: BodyItem)
    requires b.readers == [PollingAll(chunks)] && b.holder == Some(0)
    requires b.stream != [] && b.stream[0] == item && item.Chunk?
    ensures Poll(b, 0) == Some(b.(
              stream := b.stream[1..],
              taken := b.taken + [item],
              readers := [PollingAll(chunks + [item.bytes])],
              progress := ProgressAfter(b.progress, |item.bytes|),
              events := b.events
                + if b.progress.None? then [] else [Progress(b.progress.value + |item.bytes|, b.contentLength)]))
  {
    assert b.readers[0 := PollingAll(chunks + [item.bytes])] == [PollingAll(chunks + [item.bytes])];
    assert b.events + [] == b.events;
  }

  lemma ChunksOfSnoc(stream: seq<BodyItem>, i: nat)
    requires i < ReadableItems(stream)
    ensures ChunksOf(stream[..i + 1]) == ChunksOf(stream[..i]) + [stream[i].bytes]
  {
  }

  lemma SplitAt<T>(items: seq<T>, i: nat)
    requires i < |items|
    ensures items[..i + 1] == items[..i] + [items[i]]
    ensures items[i..] != [] && items[i..][0] == items[i] && items[i..][1..] == items[i + 1..]
  {
  }

  lemma OneMoreItem(b: Body, i: nat)
    requires i < ReadableItems(b.stream)
    ensures var items, item, after := b.stream[..i], b.stream[i], b.stream[..i + 1];
      && after == items + [item] && b.stream[i..] != [] && b.stream[i..][0] == item
      && b.stream[i..][1..] == b.stream[i + 1..]
      && ChunksOf(after) == ChunksOf(items) + [item.bytes]
      && |BytesOf(after)| == |BytesOf(items)| + |item.bytes|
      && ProgressEvents(after, b.progress, b.contentLength)
           == ProgressEvents(items, b.progress, b.contentLength)
            + if b.progress.None? then [] else [Progress(b.progress.value + |BytesOf(after)|, b.contentLength)]
  {
    SplitAt(b.stream, i);
    ChunksOfSnoc(b.stream, i);
    BytesOfSnoc(b.stream[..i], b.stream[i]);
    ProgressEventsSnoc(b.stream[..i], b.stream[i], b.progress, b.contentLength);
  }

  lemma TakeOneMore(b: Body, i: nat)
    requires i < ReadableItems(b.stream)
    ensures Poll(Taken(b, i), 0) == Some(Taken(b, i + 1))
  {
    OneMoreItem(b, i);
    PollYieldsChunk(Taken(b, i), ChunksOf(b.stream[..i]), b.stream[i]);
  }

  /** Polls that lead from each body of a path to the next lead to its end. */
  lemma {:induction false} PollsAlong(path: seq<Body>)
    requires path != [] && forall k :: 0 <= k < |path| - 1 ==> Poll(path[k], 0) == Some(path[k + 1])
    ensures Run(path[0], Polls(|path| - 1)) == Some(path[|path| - 1])
    decreases |path|
  {
    var n := |path| - 1;
    if n == 0 {
      assert Polls(0) == [];
    } else {
      assert Polls(n)[0] == PollStream(0) && Polls(n)[1..] == Polls(n - 1);
      assert Poll(path[0], 0) == Some(path[1]);
      assert forall k :: 0 <= k < n ==> path[1..][k] == path[k + 1];
      PollsAlong(path[1..]);
    }
  }

  lemma PollsTake(b: Body)
    ensures Run(Taken(b, 0), Polls(ReadableItems(b.stream))) == Some(Taken(b, ReadableItems(b.stream)))
  {
    var n := ReadableItems(b.stream);
    var path := seq(n + 1, k requires 0 <= k <= n => Taken(b, k));
    forall k | 0 <= k < n ensures Poll(path[k], 0) == Some(path[k + 1]) {
      TakeOneMore(b, k);
    }
    PollsAlong(path);
  }

  function AllRead(b: Body): Body {
    var n := ReadableItems(b.stream);
    PollForAll(Taken(b, n), 0, ChunksOf(b.stream[..n]))
  }

  predicate Fresh(b: Body) {
    b.readers == [] && b.holder.None? && b.lockOrder == [] && b.taken == [] && b.events == []
  }

  lemma StartsTaken(b: Body)
    requires Fresh(b)
    ensures WithReader(b, PollingAll([]), false) == Taken(b, 0)
  {
    assert b.stream[..0] == [] && b.stream[0..] == b.stream && ChunksOf([]) == [];
  }

  lemma ReadingAllRuns(b: Body)
    requires Fresh(b)
    ensures Run(b, ReadingAll(b))
         == if b.cached then Some(AllRead(b)) else Some(b.(readers := [Returned(NotFound)], cached := false))
  {
    if b.cached {
      var n := ReadableItems(b.stream);
      OpenAndLock(b, OpenAll, PollingAll([]));
      StartsTaken(b);
      PollsTake(b);
      LastPoll(b);
      assert Polls(n + 1) == Polls(n) + [PollStream(0)];
      RunInTurn(b, Taken(b, 0), Taken(b, n), [OpenAll, Lock(0)], Polls(n), [PollStream(0)]);
    } else {
      UncachedRead(b);
    }
  }

  lemma UncachedRead(b: Body)
    requires Fresh(b) && !b.cached
    ensures Run(b, [OpenAll]) == Some(b.(readers := [Returned(NotFound)], cached := false))
  {
    RunOne(b, OpenAll);
    assert b.readers + [Returned(NotFound)] == [Returned(NotFound)];
  }

  lemma LastPoll(b: Body)
    ensures Run(Taken(b, ReadableItems(b.stream)), [PollStream(0)]) == Some(AllRead(b))
  {
    RunOne(Taken(b, ReadableItems(b.stream)), PollStream(0));
  }

  /** What an undisturbed read of the whole body comes to. */
  lemma AllReadEnds(b: Body)
    ensures var n := ReadableItems(b.stream); var read := b.stream[..n]; var end := AllRead(b);
      var total := ProgressAfter(b.progress, |BytesOf(read)|);
      && !end.cached && |end.readers| == 1
      && end.readers[0] == Returned(if n == |b.stream| then WholeBody(BytesOf(read)) else ReadAllFailed(BytesOf(read)))
      && end.progress == (if n == |b.stream| then None else total)
      && end.events == ProgressEvents(read, b.progress, b.contentLength)
           + if n == |b.stream| && total.Some? then [Complete(total.value, b.contentLength), Done] else []
  {
    var n := ReadableItems(b.stream);
    FlattenChunks(b.stream[..n]);
    assert n < |b.stream| ==> b.stream[n..][0] == b.stream[n];
    assert AllRead(b).events == Taken(b, n).events || n == |b.stream|;
  }

  lemma {:induction false} FlattenChunks(items: seq<BodyItem>)
    requires forall i :: 0 <= i < |items| ==> items[i].Chunk?
    ensures Flatten(ChunksOf(items)) == BytesOf(items)
    decreases |items|
  {
    if items == [] {
    } else {
      assert ChunksOf(items) == [items[0].bytes] + ChunksOf(items[1..]);
      FlattenCons(items[0].bytes, ChunksOf(items[1..]));
      FlattenChunks(items[1..]);
    }
  }

  /** A body that a call leaves as it is leaves the store as it is. */
  lemma NothingUpdated(store: Store, handle: nat)
    ensures Updated(store, handle, BodyOf(store, handle)) == store
  {
    var updated := Updated(store, handle, BodyOf(store, handle));
    assert updated.streams == store.streams && updated.eventStates == store.eventStates;
    assert Tagged(handle, []) == [] && updated.log == store.log;
  }

  // ----- Results -----

  /** The outcome of the one reader of a run. */
  function OutcomeOf(b: Body): Option<Outcome> {
    if |b.readers| == 1 && b.readers[0].Returned? then Some(b.readers[0].outcome) else None
  }

  function ChunkOutcome(r: Result<Option<Bytes>, ReadError>): Outcome {
    match r
    case Err(HandleNotFound) => NotFound
    case Err(StreamFailed) => ChunkFailed
    case Ok(None) => EndOfBody
    case Ok(Some(bytes)) => ChunkRead(bytes)
  }

  /** A failed read of the whole body tells its caller nothing of what it had collected. */
  predicate AllOutcome(r: Result<Bytes, ReadError>, outcome: Option<Outcome>) {
    match r
    case Err(HandleNotFound) => outcome == Some(NotFound)
    case Err(StreamFailed) => outcome.Some? && outcome.value.ReadAllFailed?
    case Ok(bytes) => outcome == Some(WholeBody(bytes))
  }

  lemma {:induction false} TaggedSnoc(handle: nat, events: seq<Event>, event: Event)
    ensures Tagged(handle, events + [event]) == Tagged(handle, events) + [(handle, event)]
  {
    if events == [] {
    } else {
      assert (events + [event])[1..] == events[1..] + [event];
      TaggedSnoc(handle, events[1..], event);
    }
  }

  lemma {:induction false} TaggedConcat(handle: nat, a: seq<Event>, b: seq<Event>)
    ensures Tagged(handle, a + b) == Tagged(handle, a) + Tagged(handle, b)
  {
    if a == [] {
      assert a + b == b;
    } else {
      assert (a + b)[1..] == a[1..] + b;
      TaggedConcat(handle, a[1..], b);
      Associate([(handle, a[0])], Tagged(handle, a[1..]), Tagged(handle, b));
    }
  }

  /** The body carries on the event state that the store has for the handle. */
  predicate Continues(store: Store, handle: nat, b: Body) {
    && (b.progress.Some? ==> handle in store.eventStates && b.contentLength == store.eventStates[handle].contentLength)
    && (handle in store.eventStates ==> b.progress.Some?)
  }

  /** Progress reported on top of an update is an update with that progress. */
  lemma UpdateThenProgress(store: Store, handle: nat, b: Body, n: nat)
    requires Continues(store, handle, b) && !b.cached
    ensures var updated := Updated(store, handle, b);
      Updated(updated, handle, EmitProgress(BodyOf(updated, handle), n)) == Updated(store, handle, EmitProgress(b, n))
  {
    var updated, emitted := Updated(store, handle, b), EmitProgress(b, n);
    var reported := EmitProgress(BodyOf(updated, handle), n).events;
    assert b.events + reported == emitted.events;
    TaggedConcat(handle, b.events, reported);
    Associate(store.log, Tagged(handle, b.events), Tagged(handle, reported));
    assert store.streams - {handle} - {handle} == store.streams - {handle};
  }

  lemma UpdateThenComplete(store: Store, handle: nat, b: Body)
    requires Continues(store, handle, b) && !b.cached
    ensures var updated := Updated(store, handle, b);
      Updated(updated, handle, EmitComplete(BodyOf(updated, handle))) == Updated(store, handle, EmitComplete(b))
  {
    var updated, emitted := Updated(store, handle, b), EmitComplete(b);
    var reported := EmitComplete(BodyOf(updated, handle)).events;
    assert b.events + reported == emitted.events;
    TaggedConcat(handle, b.events, reported);
    Associate(store.log, Tagged(handle, b.events), Tagged(handle, reported));
    assert store.streams - {handle} - {handle} == store.streams - {handle};
  }

  /** Only these fields of a body reach the store. */
  lemma UpdatedFrame(store: Store, handle: nat, b: Body, b': Body)
    requires b.cached == b'.cached && (b.cached ==> b.stream == b'.stream)
    requires b.progress == b'.progress && b.events == b'.events
    ensures Updated(store, handle, b) == Updated(store, handle, b')
  {
  }

  /** One turn of the loop that reads the whole body. */
  lemma TakenThenProgress(store: Store, handle: nat, b: Body, i: nat)
    requires b == BodyOf(store, handle) && i < ReadableItems(b.stream)
    ensures var updated := Updated(store, handle, Taken(b, i));
      Updated(updated, handle, EmitProgress(BodyOf(updated, handle), |b.stream[i].bytes|))
        == Updated(store, handle, Taken(b, i + 1))
  {
    OneMoreItem(b, i);
    UpdateThenProgress(store, handle, Taken(b, i), |b.stream[i].bytes|);
    ProgressTakes(b, i);
    UpdatedFrame(store, handle, EmitProgress(Taken(b, i), |b.stream[i].bytes|), Taken(b, i + 1));
  }

  lemma TakenNothing(store: Store, handle: nat)
    requires handle in store.streams
    ensures Updated(store, handle, Taken(BodyOf(store, handle), 0))
         == store.(streams := store.streams - {handle})
    ensures ChunksOf([]) == []
  {
    var b := BodyOf(store, handle);
    NothingUpdated(store, handle);
    assert b.stream[..0] == [] && BytesOf([]) == [] && Taken(b, 0).progress == b.progress;
    assert Taken(b, 0).events == [];
  }

  /** The loop stopped at an error: nothing more happens to the event state. */
  lemma AllReadFails(store: Store, handle: nat)
    requires var b := BodyOf(store, handle); ReadableItems(b.stream) < |b.stream|
    ensures var b := BodyOf(store, handle);
      Updated(store, handle, AllRead(b)) == Updated(store, handle, Taken(b, ReadableItems(b.stream)))
  {
    var b := BodyOf(store, handle);
    var n := ReadableItems(b.stream);
    assert b.stream[n..][0] == b.stream[n];
    UpdatedFrame(store, handle, AllRead(b), Taken(b, n));
  }

  /** The loop came to the end: completion is reported on top of the progress. */
  lemma AllReadCompletes(store: Store, handle: nat)
    requires var b := BodyOf(store, handle); ReadableItems(b.stream) == |b.stream|
    ensures var b := BodyOf(store, handle); var updated := Updated(store, handle, Taken(b, |b.stream|));
      Updated(updated, handle, EmitComplete(BodyOf(updated, handle))) == Updated(store, handle, AllRead(b))
  {
    var b := BodyOf(store, handle);
    var n := |b.stream|;
    UpdateThenComplete(store, handle, Taken(b, n));
    assert b.stream[n..] == [];
    UpdatedFrame(store, handle, EmitComplete(Taken(b, n)), AllRead(b));
  }

  /** The store and result after a call are those of an undisturbed reader of the whole body. */
  predicate ReadsLikeReader(store: Store, handle: nat, after: Store, r: Result<Bytes, ReadError>) {
    var b := BodyOf(store, handle);
    var end := Run(b, ReadingAll(b));
    end.Some? && after == Updated(store, handle, end.value) && AllOutcome(r, OutcomeOf(end.value))
  }

  /** The same, spelled out: result, and for a listener the event state and the events. */
  predicate ReadsToFirstError(store: Store, handle: nat, after: Store, r: Result<Bytes, ReadError>)
    requires handle in store.streams
  {
    var stream := store.streams[handle];
    var n := ReadableItems(stream);
    && r == (if n == |stream| then Ok(BytesOf(stream)) else Err(StreamFailed))
    && (handle in store.eventStates ==>
          var state := store.eventStates[handle];
          var total := state.downloaded + |BytesOf(stream[..n])|;
          && (handle in after.eventStates <==> n < |stream|)
          && (n < |stream| ==> after.eventStates[handle] == EventState(total, state.contentLength))
          && after.log == store.log + Tagged(handle,
               ProgressEvents(stream[..n], Some(state.downloaded), state.contentLength)
               + if n == |stream| then [Complete(total, state.contentLength), Done] else []))
  }

  lemma AllReadStore(store: Store, handle: nat, r: Result<Bytes, ReadError>)
    requires handle in store.streams
    requires var stream := store.streams[handle];
      r == if ReadableItems(stream) == |stream| then Ok(BytesOf(stream)) else Err(StreamFailed)
    ensures var after := Updated(store, handle, AllRead(BodyOf(store, handle)));
      ReadsLikeReader(store, handle, after, r) && ReadsToFirstError(store, handle, after, r)
      && handle !in after.streams
  {
    var b := BodyOf(store, handle);
    ReadingAllRuns(b);
    AllReadOutcome(b, r);
    AllReadEnds(b);
  }

  lemma UnknownStore(store: Store, handle: nat)
    requires handle !in store.streams
    ensures ReadsLikeReader(store, handle, store, Err(HandleNotFound))
  {
    var b := BodyOf(store, handle);
    ReadingAllRuns(b);
    NothingUpdated(store, handle);
    UpdatedFrame(store, handle, b, b.(readers := [Returned(NotFound)], cached := false));
  }

  lemma ProgressTakes(b: Body, i: nat)
    requires i < ReadableItems(b.stream)
    ensures var emitted := EmitProgress(Taken(b, i), |b.stream[i].bytes|);
      emitted.progress == Taken(b, i + 1).progress && emitted.events == Taken(b, i + 1).events
  {
    OneMoreItem(b, i);
  }

  lemma AllReadOutcome(b: Body, r: Result<Bytes, ReadError>)
    requires r == if ReadableItems(b.stream) == |b.stream| then Ok(BytesOf(b.stream)) else Err(StreamFailed)
    ensures AllOutcome(r, OutcomeOf(AllRead(b)))
  {
    AllReadEnds(b);
    assert b.stream[..|b.stream|] == b.stream;
  }

  predicate HandedOut(stored: nat, handle: nat) {
    exists n: nat :: n < stored && IdAt(1, n) == handle
  }

  lemma NewHandleIsNew(stored: nat, handle: nat)
    requires HandedOut(stored, handle) && stored < ID_RANGE
    ensures handle != IdAt(1, stored)
  {
    NewIdIsFresh(stored);
  }

  class Registry {
    var streams: map<nat, seq<BodyItem>>
    var eventStates: map<nat, EventState>
    var next: nat
    var log: seq<(nat, Event)>
    /** The number of streams ever stored. */
    ghost var stored: nat

    function Contents(): Store
      reads this
    {
      Store(streams, eventStates, log)
    }

    /** Only handles that were handed out are in use. */
    ghost predicate Valid()
      reads this
    {
      && next == IdAt(1, stored)
      && (forall handle :: handle in streams ==> HandedOut(stored, handle))
      && (forall handle :: handle in eventStates ==> HandedOut(stored, handle))
    }

    constructor ()
      ensures Valid() && Contents() == Store(map[], map[], []) && stored == 0
    {
      streams, eventStates, next, log, stored := map[], map[], 1, [], 0;
    }

    /** Short of a wrap of the counter, the handle is in no use yet; the stream is found under it, all others stay. */
    method StoreBodyStream(stream: seq<BodyItem>) returns (handle: nat)
      requires Valid()
      modifies this`streams, this`next, this`stored
      ensures Valid() && stored == old(stored) + 1
      ensures FreshId(old(stored), handle)
      ensures old(stored) < ID_RANGE ==> handle !in old(streams) && handle !in eventStates
      ensures BodyOf(Contents(), handle).cached && BodyOf(Contents(), handle).stream == stream
      ensures forall other :: other != handle ==> BodyOf(Contents(), other) == BodyOf(old(Contents()), other)
    {
      NextId(stored);
      NewIdIsFresh(stored);
      forall used | stored < ID_RANGE && HandedOut(stored, used) ensures used != next {
        NewHandleIsNew(stored, used);
      }
      forall used | HandedOut(stored, used) ensures HandedOut(stored + 1, used) {
        var n: nat :| n < stored && IdAt(1, n) == used;
        assert n < stored + 1 && IdAt(1, n) == used;
      }
      assert HandedOut(stored + 1, IdAt(1, stored));
      handle := next;
      next := (next + 1) % ID_RANGE;
      streams := streams[handle := stream];
      stored := stored + 1;
    }

    /** Hands out a handle for a response body; its event state exists only if someone listens. */
    method OpenBody(stream: seq<BodyItem>, contentLength: Option<nat>, listening: bool) returns (handle: nat)
      requires Valid()
      modifies this`streams, this`next, this`stored, this`eventStates
      ensures Valid()
      ensures old(stored) < ID_RANGE ==>
        && handle !in old(streams) && handle !in old(eventStates)
        && BodyOf(Contents(), handle)
             == Body(stream, [], true, if listening then contentLength else None,
                     if listening then Some(0) else None, None, [], [], [])
      ensures forall other :: other != handle ==> BodyOf(Contents(), other) == BodyOf(old(Contents()), other)
    {
      handle := StoreBodyStream(stream);
      if listening {
        assert handle in streams;
        eventStates := eventStates[handle := EventState(0, contentLength)];
      }
    }

    /** Reports progress if someone listens, as the reader in `BodyStreams` does. */
    method EmitProgress(handle: nat, n: nat)
      requires Valid()
      modifies this`eventStates, this`log
      ensures Valid()
      ensures Contents()
           == Updated(old(Contents()), handle, BodyStreams.EmitProgress(BodyOf(old(Contents()), handle), n))
    {
      NothingUpdated(Contents(), handle);
      if handle in eventStates {
        var state := eventStates[handle];
        state := state.(downloaded := state.downloaded + n);
        eventStates := eventStates[handle := state];
        log := log + [(handle, Progress(state.downloaded, state.contentLength))];
        TaggedSnoc(handle, [], Progress(state.downloaded, state.contentLength));
      }
    }

    /** Removing the event state claims the terminal events, so they are reported at most once. */
    method EmitComplete(handle: nat)
      requires Valid()
      modifies this`eventStates, this`log
      ensures Valid()
      ensures Contents()
           == Updated(old(Contents()), handle, BodyStreams.EmitComplete(BodyOf(old(Contents()), handle)))
      ensures handle !in eventStates
    {
      NothingUpdated(Contents(), handle);
      if handle in eventStates {
        var state := eventStates[handle];
        ghost var complete := Complete(state.downloaded, state.contentLength);
        eventStates := eventStates - {handle};
        log := log + [(handle, Complete(state.downloaded, state.contentLength))];
        log := log + [(handle, Done)];
        TaggedSnoc(handle, [], complete);
        TaggedSnoc(handle, [complete], Done);
        assert [] + [complete] == [complete] && [complete] + [Done] == [] + [complete, Done];
      }
    }

    /**
     Does what a reader of one chunk does, undisturbed, to the body behind the handle: same result, same
     stream, same events. The other handles are left alone.
     */
    method ReadBodyChunk(handle: nat) returns (r: Result<Option<Bytes>, ReadError>)
      requires Valid()
      modifies this`streams, this`eventStates, this`log
      ensures Valid()
      ensures var b := BodyOf(old(Contents()), handle); var end := Run(b, ReadingChunk(b));
        && end.Some? && Contents() == Updated(old(Contents()), handle, end.value)
        && OutcomeOf(end.value) == Some(ChunkOutcome(r))
    {
      ghost var before := Contents();
      ghost var b := BodyOf(before, handle);
      ReadingChunkRuns(b);
      if handle !in streams {
        NothingUpdated(before, handle);
        UpdatedFrame(before, handle, b, b.(readers := [Returned(NotFound)]));
        return Err(HandleNotFound);
      }
      var stream := streams[handle];
      if stream == [] {
        streams := streams - {handle};
        EmitComplete(handle);
        return Ok(None);
      }
      var item := stream[0];
      match item {
        case Chunk(bytes) =>
          streams := streams[handle := stream[1..]];
          EmitProgress(handle, |bytes|);
          return Ok(Some(bytes));
        case ChunkError =>
          streams := streams - {handle};
          if handle in eventStates {
            eventStates := eventStates - {handle};
            log := log + [(handle, Error)];
            TaggedSnoc(handle, [], Error);
          }
          return Err(StreamFailed);
      }
    }

    /** Joins the chunks; the shortcuts for none and for one give what the general case would. */
    method Consolidate(chunks: seq<Bytes>) returns (body: Bytes)
      ensures body == Flatten(chunks)
    {
      if |chunks| == 0 {
        return [];
      }
      if |chunks| == 1 {
        assert Flatten(chunks) == chunks[0] + Flatten<bv8>([]);
        return chunks[0];
      }
      body := [];
      for i := 0 to |chunks|
        invariant body == Flatten(chunks[..i])
      {
        assert chunks[..i + 1] == chunks[..i] + [chunks[i]];
        FlattenSnoc(chunks[..i], chunks[i]);
        body := body + chunks[i];
      }
      assert chunks[..|chunks|] == chunks;
    }

    /** The loop of `ReadBodyAll` and what follows it, once the stream has left the cache. */
    method ReadToEnd(handle: nat, stream: seq<BodyItem>, ghost before: Store) returns (r: Result<Bytes, ReadError>)
      requires Valid() && handle in before.streams && before.streams[handle] == stream
      requires Contents() == before.(streams := before.streams - {handle})
      modifies this`eventStates, this`log
      ensures Valid()
      ensures Contents() == Updated(before, handle, AllRead(BodyOf(before, handle)))
      ensures r == if ReadableItems(stream) == |stream| then Ok(BytesOf(stream)) else Err(StreamFailed)
    {
      ghost var b := BodyOf(before, handle);
      var chunks: seq<Bytes> := [];
      var i := 0;
      TakenNothing(before, handle);
      while i < |stream|
        invariant 0 <= i <= ReadableItems(stream)
        invariant chunks == ChunksOf(stream[..i])
        invariant Valid() && Contents() == Updated(before, handle, Taken(b, i))
      {
        if stream[i].ChunkError? {
          AllReadFails(before, handle);
          return Err(StreamFailed);
        }
        var bytes := stream[i].bytes;
        ChunksOfSnoc(stream, i);
        TakenThenProgress(before, handle, b, i);
        EmitProgress(handle, |bytes|);
        chunks := chunks + [bytes];
        i := i + 1;
      }
      AllReadCompletes(before, handle);
      EmitComplete(handle);
      assert stream[..i] == stream;
      FlattenChunks(stream);
      var body := Consolidate(chunks);
      return Ok(body);
    }

    /**
     Does what a reader of the whole body does, undisturbed, to the body behind the handle. The handle
     leaves the cache at once. Without an error in the stream the result is the whole body and completion
     is reported; with one, only the progress so far has been, and the event state stays behind.
     */
    method ReadBodyAll(handle: nat) returns (r: Result<Bytes, ReadError>)
      requires Valid()
      modifies this`streams, this`eventStates, this`log
      ensures Valid() && handle !in streams
      ensures ReadsLikeReader(old(Contents()), handle, Contents(), r)
      ensures handle !in old(streams) ==> r == Err(HandleNotFound) && Contents() == old(Contents())
      ensures handle in old(streams) ==> ReadsToFirstError(old(Contents()), handle, Contents(), r)
    {
      ghost var before := Contents();
      if handle !in streams {
        UnknownStore(before, handle);
        return Err(HandleNotFound);
      }
      var stream := streams[handle];
      streams := streams - {handle};
      r := ReadToEnd(handle, stream, before);
      AllReadStore(before, handle, r);
    }

    /** Forgets stream and event state, as the step of dropping a handle does, and reports nothing. */
    method DropBodyStream(handle: nat)
      requires Valid()
      modifies this`streams, this`eventStates
      ensures Valid()
      ensures Contents()
           == Updated(old(Contents()), handle, BodyStep(BodyOf(old(Contents()), handle), DropHandle).value)
    {
      streams := streams - {handle};
      eventStates := eventStates - {handle};
      assert Tagged(handle, []) == [] && log + [] == log;
    }
  }
}
