/**
 One response body read through its handle. Readers take a reference to the stream from the cache,
 queue for its lock and then poll it; the handle may be dropped or evicted at any time. Every step is
 the code between two points at which another task can be scheduled.
 */
module BodyStreams {
  import opened Wrappers
  import opened RequestEvents
  import opened Sequences

  type Bytes = seq<bv8>

  /** What one poll of the response stream yields; afterwards the stream is at its end. */
  datatype BodyItem = Chunk(bytes: Bytes) | ChunkError

  /** What a reader's promise settles with. A failed reader of the whole body forgets what it had collected. */
  datatype Outcome =
    | NotFound
    | ChunkRead(bytes: Bytes)
    | EndOfBody
    | WholeBody(bytes: Bytes)
    | ChunkFailed
    | ReadAllFailed(forgotten: Bytes)

  datatype Reader =
    | WaitingForChunk
    | WaitingForAll
    | PollingChunk
    | PollingAll(chunks: seq<Bytes>)
    | Returned(outcome: Outcome)

  /** `progress` is the event state: the bytes reported so far, present until a terminal event. */
  datatype Body = Body(
    stream: seq<BodyItem>,
    taken: seq<BodyItem>,
    cached: bool,
    contentLength: Option<nat>,
    progress: Option<nat>,
    holder: Option<nat>,
    readers: seq<Reader>,
    lockOrder: seq<nat>,
    events: seq<Event>)

  datatype BodyAction =
    | OpenChunk
    | OpenAll
    | Lock(reader: nat)
    | PollStream(reader: nat)
    | DropHandle
    | EvictHandle

  function ItemBytes(item: BodyItem): Bytes {
    if item.Chunk? then item.bytes else []
  }

  function BytesOf(items: seq<BodyItem>): Bytes {
    if items == [] then []
    else ItemBytes(items[0]) + BytesOf(items[1..])
  }

  // ----- Events -----

  function EmitProgress(b: Body, n: nat): Body {
    match b.progress
    case Some(d) =>
      b.(progress := Some(d + n), events := b.events + [Progress(d + n, b.contentLength)])
    case None => b
  }

  /** Completion is claimed by removing the event state. */
  function EmitComplete(b: Body): Body {
    match b.progress
    case Some(d) =>
      b.(progress := None, events := b.events + [Complete(d, b.contentLength), Done])
    case None => b
  }

  function EmitError(b: Body): Body {
    if b.progress.Some? then b.(progress := None, events := b.events + [Error]) else b
  }

  // ----- Steps -----

  function AddReader(b: Body, reader: Reader, cached: bool): Body {
    b.(readers := b.readers + [reader], cached := cached)
  }

  /** A read finds the stream in the cache or fails at once. */
  function OpenForChunk(b: Body): Body {
    AddReader(b, if b.cached then WaitingForChunk else Returned(NotFound), b.cached)
  }

  /** Reading the whole body takes the stream out of the cache. */
  function OpenForAll(b: Body): Body {
    AddReader(b, if b.cached then WaitingForAll else Returned(NotFound), false)
  }

  function TakeLock(b: Body, r: nat): Option<Body> {
    if r >= |b.readers| || b.holder.Some? then None
    else if b.readers[r].WaitingForChunk? then
      Some(b.(holder := Some(r), lockOrder := b.lockOrder + [r], readers := b.readers[r := PollingChunk]))
    else if b.readers[r].WaitingForAll? then
      Some(b.(holder := Some(r), lockOrder := b.lockOrder + [r], readers := b.readers[r := PollingAll([])]))
    else None
  }

  function Return(b: Body, r: nat, outcome: Outcome): Body
    requires r < |b.readers|
  {
    b.(holder := None, readers := b.readers[r := Returned(outcome)])
  }

  function TakeItem(b: Body): Body
    requires b.stream != []
  {
    b.(stream := b.stream[1..], taken := b.taken + [b.stream[0]])
  }

  function PollForChunk(b: Body, r: nat): Body
    requires r < |b.readers|
  {
    if b.stream == [] then Return(EmitComplete(b.(cached := false)), r, EndOfBody)
    else
      match b.stream[0]
      case Chunk(bytes) => Return(EmitProgress(TakeItem(b), |bytes|), r, ChunkRead(bytes))
      case ChunkError => Return(EmitError(TakeItem(b).(cached := false)), r, ChunkFailed)
  }

  /** A stream error ends the read without an event and without touching the event state. */
  function PollForAll(b: Body, r: nat, chunks: seq<Bytes>): Body
    requires r < |b.readers|
  {
    if b.stream == [] then Return(EmitComplete(b), r, WholeBody(Flatten(chunks)))
    else
      match b.stream[0]
      case Chunk(bytes) =>
        EmitProgress(TakeItem(b), |bytes|).(readers := b.readers[r := PollingAll(chunks + [bytes])])
      case ChunkError => Return(TakeItem(b), r, ReadAllFailed(Flatten(chunks)))
  }

  function Poll(b: Body, r: nat): Option<Body> {
    if r >= |b.readers| || b.holder != Some(r) then None
    else
      match b.readers[r]
      case PollingChunk => Some(PollForChunk(b, r))
      case PollingAll(chunks) => Some(PollForAll(b, r, chunks))
      case _ => None
  }

  function BodyStep(b: Body, a: BodyAction): Option<Body> {
    match a
    case OpenChunk => Some(OpenForChunk(b))
    case OpenAll => Some(OpenForAll(b))
    case Lock(r) => TakeLock(b, r)
    case PollStream(r) => Poll(b, r)
    case DropHandle => Some(b.(cached := false, progress := None))
    case EvictHandle => Some(b.(cached := false))
  }

  // ----- Conservation of bytes -----

  /** The bytes a reader got from the stream. */
  function Collected(reader: Reader): Bytes {
    match reader
    case PollingAll(chunks) => Flatten(chunks)
    case Returned(ChunkRead(bytes)) => bytes
    case Returned(WholeBody(bytes)) => bytes
    case Returned(ReadAllFailed(forgotten)) => forgotten
    case _ => []
  }

  /** The bytes of the given readers, one after the other. */
  function CollectedBy(readers: seq<Reader>, order: seq<nat>): Bytes
    requires forall i :: 0 <= i < |order| ==> order[i] < |readers|
    decreases |order|
  {
    if order == [] then []
    else CollectedBy(readers, order[..|order| - 1]) + Collected(readers[order[|order| - 1]])
  }

  /** Readers in the order they got the lock: all valid, each once, the holder last. */
  predicate LocksInOrder(b: Body) {
    && (forall i :: 0 <= i < |b.lockOrder| ==>
          b.lockOrder[i] < |b.readers|
          && !b.readers[b.lockOrder[i]].WaitingForChunk? && !b.readers[b.lockOrder[i]].WaitingForAll?)
    && (forall i, j :: 0 <= i < j < |b.lockOrder| ==> b.lockOrder[i] != b.lockOrder[j])
    && (b.holder.Some? ==> b.lockOrder != [] && b.lockOrder[|b.lockOrder| - 1] == b.holder.value)
  }

  /** Only the lock's holder is polling. */
  predicate OneHolder(b: Body) {
    forall r :: 0 <= r < |b.readers| && (b.readers[r].PollingChunk? || b.readers[r].PollingAll?) ==>
      b.holder == Some(r)
  }

  predicate BytesConserved(b: Body, body: seq<BodyItem>)
    requires LocksInOrder(b)
  {
    && b.taken + b.stream == body
    && CollectedBy(b.readers, b.lockOrder) == BytesOf(b.taken)
  }

  /** Readers that saw the end of the stream saw all of it. */
  predicate EndMeansEnd(b: Body) {
    forall r :: 0 <= r < |b.readers| && SawEnd(b.readers[r]) ==> b.stream == []
  }

  predicate SawEnd(reader: Reader) {
    reader.Returned? && (reader.outcome.EndOfBody? || reader.outcome.WholeBody?)
  }

  predicate BodyInv(b: Body, body: seq<BodyItem>) {
    LocksInOrder(b) && OneHolder(b) && BytesConserved(b, body) && EndMeansEnd(b)
  }

  lemma {:induction false} CollectedByFrame(readers: seq<Reader>, readers': seq<Reader>, order: seq<nat>)
    requires forall i :: 0 <= i < |order| ==> order[i] < |readers| && order[i] < |readers'|
    requires forall i :: 0 <= i < |order| ==> Collected(readers[order[i]]) == Collected(readers'[order[i]])
    ensures CollectedBy(readers, order) == CollectedBy(readers', order)
    decreases |order|
  {
    if order != [] {
      CollectedByFrame(readers, readers', order[..|order| - 1]);
    }
  }

  lemma {:induction false} BytesOfConcat(a: seq<BodyItem>, b: seq<BodyItem>)
    ensures BytesOf(a + b) == BytesOf(a) + BytesOf(b)
  {
    if a == [] {
      assert a + b == b;
    } else {
      assert (a + b)[1..] == a[1..] + b;
      BytesOfConcat(a[1..], b);
      Associate(ItemBytes(a[0]), BytesOf(a[1..]), BytesOf(b));
    }
  }

  lemma BytesOfSnoc(items: seq<BodyItem>, item: BodyItem)
    ensures BytesOf(items + [item]) == BytesOf(items) + ItemBytes(item)
  {
    BytesOfConcat(items, [item]);
    assert BytesOf([item]) == ItemBytes(item) + BytesOf([]);
  }

  lemma OpenKeepsInv(b: Body, body: seq<BodyItem>, a: BodyAction)
    requires BodyInv(b, body) && (a.OpenChunk? || a.OpenAll?)
    ensures BodyInv(BodyStep(b, a).value, body)
  {
    var next := BodyStep(b, a).value;
    var reader := next.readers[|b.readers|];
    assert next == AddReader(b, reader, next.cached);
    AddReaderKeepsLocks(b, reader, next.cached);
    AddReaderKeepsBytes(b, body, reader, next.cached);
  }

  predicate NewReader(reader: Reader) {
    reader.WaitingForChunk? || reader.WaitingForAll? || reader == Returned(NotFound)
  }

  lemma AddReaderKeepsLocks(b: Body, reader: Reader, cached: bool)
    requires LocksInOrder(b) && OneHolder(b) && EndMeansEnd(b) && NewReader(reader)
    ensures var next := AddReader(b, reader, cached); LocksInOrder(next) && OneHolder(next) && EndMeansEnd(next)
  {
  }

  lemma AddReaderKeepsBytes(b: Body, body: seq<BodyItem>, reader: Reader, cached: bool)
    requires LocksInOrder(b) && BytesConserved(b, body) && LocksInOrder(AddReader(b, reader, cached))
    ensures BytesConserved(AddReader(b, reader, cached), body)
  {
    CollectedByFrame(b.readers, b.readers + [reader], b.lockOrder);
  }

  lemma LockKeepsInv(b: Body, body: seq<BodyItem>, r: nat)
    requires BodyInv(b, body) && TakeLock(b, r).Some?
    ensures BodyInv(TakeLock(b, r).value, body)
  {
    LockEffect(b, r);
    LockKeepsOrder(b, r);
    LockConservesBytes(b, body, r);
  }

  /** The reader that gets the lock is a new one, joins the order at its end and has collected nothing yet. */
  lemma LockEffect(b: Body, r: nat)
    requires LocksInOrder(b) && TakeLock(b, r).Some?
    ensures var next := TakeLock(b, r).value;
      && r < |b.readers| && r !in b.lockOrder
      && Collected(b.readers[r]) == []
      && (next.readers[r].PollingChunk? || next.readers[r] == PollingAll([]))
      && next == b.(holder := Some(r), lockOrder := b.lockOrder + [r], readers := b.readers[r := next.readers[r]])
  {
  }

  lemma LockKeepsOrder(b: Body, r: nat)
    requires LocksInOrder(b) && TakeLock(b, r).Some?
    ensures LocksInOrder(TakeLock(b, r).value)
  {
  }

  lemma LockConservesBytes(b: Body, body: seq<BodyItem>, r: nat)
    requires LocksInOrder(b) && BytesConserved(b, body) && TakeLock(b, r).Some?
    requires LocksInOrder(TakeLock(b, r).value)
    ensures BytesConserved(TakeLock(b, r).value, body)
  {
    LockEffect(b, r);
    var next := TakeLock(b, r).value;
    assert Collected(next.readers[r]) == [];
    CollectedByFrame(b.readers, next.readers, b.lockOrder);
    assert next.lockOrder[..|next.lockOrder| - 1] == b.lockOrder;
  }

  /** A poll by the lock's holder adds what it took to the end of what was collected. */
  lemma PollCollects(b: Body, r: nat, readers': seq<Reader>, more: Bytes)
    requires LocksInOrder(b) && b.holder == Some(r)
    requires |readers'| == |b.readers| && (forall i :: 0 <= i < |readers'| && i != r ==> readers'[i] == b.readers[i])
    requires Collected(readers'[r]) == Collected(b.readers[r]) + more
    ensures CollectedBy(readers', b.lockOrder) == CollectedBy(b.readers, b.lockOrder) + more
  {
    var before := b.lockOrder[..|b.lockOrder| - 1];
    CollectedByFrame(b.readers, readers', before);
    CollectedByLast(readers', b.lockOrder);
    CollectedByLast(b.readers, b.lockOrder);
    Associate(CollectedBy(b.readers, before), Collected(b.readers[r]), more);
  }

  lemma CollectedByLast(readers: seq<Reader>, order: seq<nat>)
    requires order != [] && forall i :: 0 <= i < |order| ==> order[i] < |readers|
    ensures var n := |order| - 1;
      CollectedBy(readers, order) == CollectedBy(readers, order[..n]) + Collected(readers[order[n]])
  {
  }

  function NextBytes(b: Body): Bytes {
    if b.stream != [] then ItemBytes(b.stream[0]) else []
  }

  /** What a poll does to everything but the events. */
  lemma PollEffect(b: Body, r: nat)
    requires Poll(b, r).Some?
    ensures var next := Poll(b, r).value;
      && r < |b.readers|
      && next.lockOrder == b.lockOrder
      && next.stream == (if b.stream != [] then b.stream[1..] else [])
      && next.taken == b.taken + (if b.stream != [] then [b.stream[0]] else [])
      && next.readers == b.readers[r := next.readers[r]]
      && (next.holder == None || next.holder == b.holder)
      && (next.readers[r].PollingAll? ==> next.holder == b.holder)
      && (next.readers[r].PollingAll? || next.readers[r].Returned?)
      && (SawEnd(next.readers[r]) ==> b.stream == [])
  {
  }

  lemma PollerCollects(b: Body, r: nat)
    requires Poll(b, r).Some?
    ensures r < |b.readers| && r < |Poll(b, r).value.readers|
    ensures Collected(Poll(b, r).value.readers[r]) == Collected(b.readers[r]) + NextBytes(b)
  {
    if b.readers[r].PollingAll? {
      FlattenSnoc(b.readers[r].chunks, NextBytes(b));
    }
  }

  lemma PollConservesBytes(b: Body, body: seq<BodyItem>, r: nat)
    requires LocksInOrder(b) && BytesConserved(b, body) && Poll(b, r).Some?
    requires LocksInOrder(Poll(b, r).value)
    ensures BytesConserved(Poll(b, r).value, body)
  {
    PollersCollect(b, r);
    PollTakes(b, r);
  }

  lemma PollersCollect(b: Body, r: nat)
    requires LocksInOrder(b) && Poll(b, r).Some? && LocksInOrder(Poll(b, r).value)
    ensures var next := Poll(b, r).value;
      CollectedBy(next.readers, next.lockOrder) == CollectedBy(b.readers, b.lockOrder) + NextBytes(b)
  {
    PollEffect(b, r);
    PollerCollects(b, r);
    PollCollects(b, r, Poll(b, r).value.readers, NextBytes(b));
  }

  lemma PollTakes(b: Body, r: nat)
    requires Poll(b, r).Some?
    ensures var next := Poll(b, r).value;
      && BytesOf(next.taken) == BytesOf(b.taken) + NextBytes(b)
      && next.taken + next.stream == b.taken + b.stream
  {
    PollEffect(b, r);
    if b.stream != [] {
      BytesOfSnoc(b.taken, b.stream[0]);
      Associate(b.taken, [b.stream[0]], b.stream[1..]);
    }
  }

  lemma PollKeepsInv(b: Body, body: seq<BodyItem>, r: nat)
    requires BodyInv(b, body) && Poll(b, r).Some?
    ensures BodyInv(Poll(b, r).value, body)
  {
    PollEffect(b, r);
    PollConservesBytes(b, body, r);
  }

  lemma BodyStepKeepsInv(b: Body, body: seq<BodyItem>, a: BodyAction)
    requires BodyInv(b, body) && BodyStep(b, a).Some?
    ensures BodyInv(BodyStep(b, a).value, body)
  {
    match a {
      case OpenChunk => OpenKeepsInv(b, body, a);
      case OpenAll => OpenKeepsInv(b, body, a);
      case Lock(r) => LockKeepsInv(b, body, r);
      case PollStream(r) => PollKeepsInv(b, body, r);
      case _ =>
    }
  }
}
