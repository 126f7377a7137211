# Verified model of the wreq-js native layer

wreq-js is an HTTP and WebSocket client for Node whose logic lives in a Rust native layer. This project
models the parts of that layer that carry state, concurrency or exact arithmetic, together with the RFC
6455 echo endpoint of its test server, and proves what holds of them over every input, every schedule or
every way of cutting a byte stream.

Two kinds of model are used, after the form of the code. Tasks that run concurrently are step functions
over a state, one step for the code between two points at which another task can take over; a run is any
sequence of steps. Code that updates objects or loops over collections is classes and methods proved
against functions, and the laws are proved about those functions.

| file | what it models |
|---|---|
| `websocket_pipeline.dfy` | receiver task, bounded channel, consumer task with permits, JavaScript thread |
| `websocket_delivery.dfy` | which callbacks run, in which order, for every schedule and every abort of the receiver |
| `websocket_progress.dfy` | conservation of messages, the buffer bound, deadlock freedom, termination |
| `websocket_extremes.dfy` | the guarantees are sharp: every abort result occurs and the bound is reached |
| `connection_registry.dfy` | wrapping id counters and the registry of open connections |
| `request_events.dfy` | the event automaton of one request |
| `request_lifecycle.dfy` | request task, cancellation, settlement, together with its body handle |
| `request_guarantees.dfy` | event order, bytes and settlement over every schedule |
| `request_reports.dfy` | terminal events, errors and progress over every schedule: when the documented promises hold |
| `request_cancellation.dfy` | what a cancellation can change |
| `body_streams.dfy`, `body_events.dfy`, `body_reports.dfy` | concurrent readers of one body handle, the events they report, and which reads report them |
| `body_registry.dfy` | the stream cache, the event states and the loop of `read_body_all` as the code updates them |
| `lookup_caches.dfy` | the get-then-insert caches for clients and cookie jars |
| `ephemeral_clients.dfy` | the cache key of ephemeral clients and what the builder makes of it |
| `frame_codec.dfy` | the frames of section 5.2 and the masking of section 5.3 of RFC 6455 |
| `echo_session.dfy` | the echo endpoint: laws on session values, and the object method by method |
| `emulation_headers.dfy` | header overlay in place, and listing a preset's headers |
| `emulation_orders.dfy` | ordered lists that reject duplicates |
| `profile_aliases.dfy` | version comparison and the alias of each browser family |
| `cookie_pairs.dfy` | cookie strings and the merged `Cookie` header of an upgrade |
| `cookie_expiry.dfy` | expiry milliseconds to nanoseconds and back, in 128-bit arithmetic |
| `cookie_restore.dfy` | session jars and the all-or-nothing restore of a batch |

`sequences.dfy`, `text.dfy` and `wrappers.dfy` hold what several of these share.

## Where the code does less than one might expect

- `read_body_all` leaves on the first stream error (`rust/src/client.rs:461`) without an event and without
  removing the event state, while `docs/guides/request-events.mdx` says that a failed life cycle reports
  `error` and that `done` means success. With a listener and as long as the handle is not dropped, over every
  schedule, a streamed body reports `error` if and only if a read of one chunk failed
  (`RequestReports.ErrorIffChunkReadFailed`, `RequestReports.WhenFailureIsReported`); so a caller who never reads
  the body whole is told of every failure (`RequestReports.ChunkReadersSeeFailures`).
  `RequestReports.ReadAllErrorIsSilent` is a run that comes to rest with no terminal event, and
  `RequestReports.DoneAfterFailure` one in which a waiting reader then finds the stream at its end, so that the
  failed request is reported `done`. Failures before the body is stored are always reported
  (`RequestGuarantees.SettledRequest`).
- The same page offers progress without consuming the body. With a listener, if nobody reads, progress is
  reported if and only if the body came inline, which status, method, declared length and body decide
  (`RequestReports.ProgressWithoutReading`). Of a streamed body it is reported only as chunks are taken
  (`rust/src/client.rs:425`): none if nobody polls (`RequestReports.UnreadBodyReportsNoProgress`), and exactly
  that of the chunks taken before an error was reported (`RequestReports.ProgressIsComplete`).
- The expiry arithmetic in `set_session_cookies` (`rust/src/client.rs:1475-1477`) saturates in its cast and
  can exceed 128 bits in its product. The release profile leaves overflow checks off, so it wraps, and some
  expiries that should be refused as out of range are accepted. `CookieExpiry.WhenImportIsFaithful` gives the
  exact condition on the milliseconds; `CookieExpiry.SaturatedAbove` and `CookieExpiry.SaturatedBelow` the
  times beyond 128 bits, all of which are accepted near the epoch; `CookieExpiry.HugeExpiryIsAccepted` an
  input below them: 2^126 milliseconds are taken for the epoch. Every whole millisecond
  from year -9999 to year 9999 is imported exactly.
- `jar_for` reads the cache and inserts in two steps. Two first calls for one session can return
  different jars, one of which is lost; `LookupCaches.FirstCallsCanRace` gives a run. As long as the session is
  not created anew, its calls agree if and only if at most one insertion takes place
  (`LookupCaches.CallsAgreeIfInsertedOnce`), which calls that do not overlap a first one guarantee
  (`LookupCaches.CalmCallsAgree`).
- `merge_header_map` returns on an invalid entry with the entries before it already merged;
  `EmulationHeaders.MergeHeaderMap` states the target in that case too.

## Model

| member | source | states |
|---|---|---|
| `WebSocketDelivery.StepKeeps` | rust/src/lib.rs:1101-1250 | every step of any task keeps the invariant, and every step but an abort of the receiver keeps the complete log of callbacks that the run is heading for |
| `WebSocketDelivery.ReaderViewIsOwed` | rust/src/lib.rs:1104-1153 | for every socket script, what receiver and consumer make of it together is the log that the script prescribes |
| `WebSocketDelivery.CleanRunDelivers` | rust/src/lib.rs:1101-1247 | for every interleaving without an abort, the callbacks enqueued so far are a prefix of the prescribed log (messages in order, at most one error, one close), and a finished run has run exactly that log |
| `WebSocketDelivery.AbortCutsPlan` | rust/src/lib.rs:1149-1153 | an abort of the receiver replaces what it still owed by a single 1006 close and changes nothing already taken |
| `WebSocketDelivery.AbortedRunDelivers` | rust/src/lib.rs:1166-1247 | with an abort, the log is the prescribed one cut at some point and followed by a 1006 close |
| `WebSocketDelivery.CloseGuarantee` | rust/src/lib.rs:1212-1247 | in every reachable state, aborted or not, at most one close callback, none after it, at most one error callback; on termination exactly one close callback if the user passed one |
| `WebSocketDelivery.ErrorThenAbnormalClose` | rust/src/lib.rs:1138-1145 | in every finished run, aborted or not, an error callback is followed by the 1006 close and nothing else |
| `WebSocketDelivery.CleanLogHasAllMessages` | rust/src/lib.rs:1104-1147 | the messages of a clean log are all messages before the first close frame, error or end of stream, in order |
| `WebSocketDelivery.FinishedRunSpelled` | rust/src/lib.rs:1101-1247 | the callbacks of every finished run, spelled out: the messages before the first close frame, error or end, then the error if there is one, then one close with the frame's own code and reason, 1005 for a close frame without them, 1006 after an error or the end; after an abort a beginning of these and 1006 |
| `WebSocketProgress.StepConserves` | rust/src/lib.rs:1101-1199 | no step loses, duplicates or reorders a message between socket, channel, permits, queue and callback |
| `WebSocketProgress.BackPressure` | rust/src/lib.rs:1098-1199 | messages read are those called back followed by those under way; of the latter at most 130; the channel never exceeds 64; free and held permits always total 64; an abort loses at most one message |
| `WebSocketProgress.StepDoesWork` | rust/src/lib.rs:1101-1250 | every step of every actor uses up some of a bounded amount of work |
| `WebSocketProgress.Enabled` | rust/src/lib.rs:1101-1250 | every state that is not final has a step that needs neither an abort nor the user: no deadlock |
| `WebSocketProgress.EveryRunEnds` | rust/src/lib.rs:1101-1250 | no run is longer than seven steps for each socket item and thirteen; a run is stuck exactly if everything is drained, and then the connection is unregistered |
| `WebSocketProgress.RegisteredUntilDone` | rust/src/lib.rs:1166-1250 | over every schedule the connection is registered exactly until the consumer task has finished or the user has closed it, and when that task has finished the receiver is done and the channel empty |
| `WebSocketProgress.Drain` | rust/src/lib.rs:1101-1250 | from every reachable state the tasks alone bring the run to its end, with exactly the log it was heading for |
| `WebSocketExtremes.EveryCutHappens` | rust/src/lib.rs:1149-1247 | every log that an aborted receiver may leave behind is left behind by some finished run |
| `WebSocketExtremes.BoundIsReached` | rust/src/lib.rs:1098-1162 | 130 messages can be read before a single callback has run |
| `ConnectionRegistry.IdsRepeatOnlyAfterWrap` | rust/src/websocket.rs:105-109 | two ids of one counter are equal exactly if a multiple of 2^64 ids lies between them |
| `ConnectionRegistry.IdsCountUp` | rust/src/websocket.rs:105-109 | ids count 1, 2, 3 and so on up to 2^64 - 1 and then wrap to 0 |
| `ConnectionRegistry.LookupIsFaithful` | rust/src/websocket.rs:105-114 | among the first 2^64 connections an id names one connection only |
| `ConnectionRegistry.NewIdIsFresh` | rust/src/websocket.rs:105-109 | a new id differs from those of the 2^64 - 1 connections before it |
| `ConnectionRegistry.Registry.Store` | rust/src/websocket.rs:105-109 | storing registers the connection under a fresh id and keeps all others, each the latest stored under its id |
| `ConnectionRegistry.Registry.Get` | rust/src/websocket.rs:112-114 | a lookup finds the connection last stored under the id, or nothing |
| `ConnectionRegistry.Registry.Remove` | rust/src/websocket.rs:117-119 | removal takes away exactly that id, and is harmless when repeated |
| `RequestEvents.PrefixIsWellOrdered` | rust/src/client.rs:626-793 | every prefix of an event sequence in the fixed order is in that order |
| `RequestEvents.TerminalIsLast` | rust/src/client.rs:626-793 | in the fixed order nothing follows done or error, so at most one of them occurs |
| `RequestEvents.WellOrderedSpelled` | rust/src/client.rs:626-793 | the fixed order by neighbours: which event may come first and which may follow which, with progress totals never falling and completion carrying the last of them |
| `RequestGuarantees.EventsInOrder` | rust/src/lib.rs:696-753 | for every request, path, failure, cancellation and mix of readers, every event is one that may follow its neighbour, and a terminal event is the last one |
| `RequestReports.EventsSpelled` | rust/src/client.rs:608-796 | with a listener, over every schedule without a cancellation, a returned request has reported exactly these events: an error alone if no client resolves, start and error for an unsupported method, start, sent and error without a response, else headers and then done, or error, or progress, completion and done with the length of an inline body; of a streamed body these first |
| `RequestReports.EventLengths` | rust/src/client.rs:325-349 | over every schedule, headers carry the declared length of the response, and so do progress and completion of a streamed body; those of an inline body carry its true length |
| `RequestGuarantees.StepKeepsInv` | rust/src/client.rs:608-806 | every step of request task, canceller and readers keeps the invariant that ties task, event state, stream and token together |
| `RequestReports.ProgressIsExact` | rust/src/client.rs:325-349 | over every schedule, progress events of a streamed body carry its running totals; a body reported done has had all its chunks reported; completion carries the length of the whole body |
| `RequestGuarantees.BytesAreConserved` | rust/src/client.rs:415-487 | over any mix of concurrent reads, the bytes collected in lock order and those still in the stream are the body; once some read saw the end they are all of it |
| `RequestGuarantees.ResultsConcatenate` | rust/src/client.rs:415-487 | what reads hand to their callers, in lock order, and the rest of the stream make up the body if and only if no read of the whole body has bytes in hand or failed and forgot some |
| `RequestReports.TerminalEventIffClaimed` | rust/src/client.rs:430-471 | with a listener, over every schedule without a drop of the handle, a streamed body has reported done or an error if and only if some read saw the end of the body or failed on a chunk |
| `RequestReports.ErrorIffChunkReadFailed` | rust/src/client.rs:430-471 | under the same conditions an error was reported if and only if some read of one chunk failed |
| `RequestReports.WhenFailureIsReported` | rust/src/client.rs:430-471 | under the same conditions the promise that a failed read is reported is kept if and only if a read of one chunk failed or no read of the whole body did |
| `RequestReports.ChunkReadersSeeFailures` | rust/src/client.rs:430-438 | if nobody reads the body whole, an error is reported if and only if some read failed |
| `RequestReports.DoneAfterFailure` | rust/src/client.rs:440-471 | a run at rest in which a read of the whole body failed and yet complete and done were reported, and no error |
| `RequestReports.ProgressIsComplete` | rust/src/client.rs:423-465 | with a listener, over every schedule without a drop, the progress reported is that of everything taken from the stream, or of everything taken before the error that was reported |
| `RequestReports.UnreadBodyReportsNoProgress` | rust/src/client.rs:781-795 | over every schedule in which nobody polls the stream, a streamed body reports no progress |
| `RequestReports.ProgressWithoutReading` | rust/src/client.rs:754-796 | with a listener, over every schedule in which nobody polls, a returned request has reported progress if and only if its body came inline; without a cancellation the request and its response decide that |
| `RequestGuarantees.SettledRequest` | rust/src/lib.rs:730-753 | a settled promise has left the cancellation registry; without a streamed body it has reported exactly one terminal event, error if and only if it failed; an inline body is the whole body |
| `RequestGuarantees.RequestSettles` | rust/src/lib.rs:724-753 | from every state the request can settle within four steps of its own |
| `RequestReports.ReadAllErrorIsSilent` | rust/src/client.rs:460-471 | a run that comes to rest with no terminal event and with its event state still stored |
| `RequestReports.LaterReadsFail` | rust/src/client.rs:415-492 | after a drop, an eviction, a read of the whole body, the end of the body or a failed chunk, every later read fails at once over every continuation, and no other step has that effect |
| `RequestReports.DropSilences` | rust/src/client.rs:489-492 | after a drop of the handle nothing more is reported, whatever reads are under way |
| `RequestCancellation.OutcomeIsPrescribed` | rust/src/lib.rs:721-753 | whatever the schedule, a request ends with the outcome that its method and response prescribe, unless it is cancellable and was cancelled; then it may have failed instead |
| `RequestCancellation.OutcomeSpelled` | rust/src/client.rs:633-938 | over every schedule without a cancellation, in terms of method, status, declared length and body: no body exactly for HEAD in any case and for 101, 204, 205 and 304; inline exactly up to 2097152 declared bytes; streamed otherwise; failed exactly if no response arrives or an inline body breaks |
| `RequestCancellation.LateCancelIsHarmless` | rust/src/lib.rs:1020-1028 | once the request task has returned, every continuation runs the same with a cancellation as without it |
| `RequestCancellation.RegisteredUntilSettled` | rust/src/lib.rs:721-739 | over every schedule, a request is in the cancellation registry exactly while it is cancellable, not yet cancelled and not settled; a cancellation before it settled has set its token |
| `RequestCancellation.CancelCanAbort` | rust/src/lib.rs:725-739 | after every schedule that leaves a cancellable request in flight, a cancellation can make its promise fail at once, adding the error event and no other |
| `BodyStreams.BodyStepKeepsInv` | rust/src/client.rs:409-492 | every step of every reader keeps mutual exclusion, lock order, conservation of bytes and the meaning of end of body |
| `BodyStreams.PollCollects` | rust/src/client.rs:420-428 | a poll by the lock's holder adds what it took at the end of everything collected so far |
| `BodyEvents.BodyStepTracks` | rust/src/client.rs:415-492 | while the event state exists it and the events agree with the bytes taken; removing it before the terminal event makes that event unique |
| `BodyEvents.BodyStepCompletes` | rust/src/client.rs:337-349 | completion is reported only at the end of the stream and with the length of the whole body |
| `BodyReports.BodyStepTracksClaims` | rust/src/client.rs:430-471 | whatever any reader does short of dropping the handle, these stay equivalent: the event state is gone, a read has claimed it, a terminal event was reported |
| `BodyReports.BodyStepTracksErrors` | rust/src/client.rs:430-471 | whatever any reader does short of dropping the handle, an error was reported exactly if a read of one chunk failed |
| `BodyReports.BodyStepKeepsDone` | rust/src/client.rs:337-349 | whatever any reader does, drops included, a body reported done has had all its chunks reported, and nothing is reported afterwards |
| `BodyEvents.ReadersProgress` | rust/src/client.rs:420-467 | while a reader has not returned some reader can go on, and each such step uses up stream or reading work |
| `BodyRegistry.Registry.StoreBodyStream` | rust/src/client.rs:409-413 | short of a wrap of the counter the new handle is in no use; the stream is found under it, and the body behind every other handle is as before |
| `BodyRegistry.Registry.OpenBody` | rust/src/client.rs:781-795 | a streamed response gets an unused handle and starts as the body of the concurrent model does, with an event state exactly if someone listens |
| `BodyRegistry.Registry.ReadBodyChunk` | rust/src/client.rs:415-448 | a call is an undisturbed reader of the concurrent model: opening, locking and polling once give the same result, stream, event state and events, and no other handle is touched |
| `BodyRegistry.Registry.Consolidate` | rust/src/client.rs:473-486 | the shortcuts for no chunk and for one chunk agree with joining all chunks |
| `BodyRegistry.Registry.ReadBodyAll` | rust/src/client.rs:451-487 | a call is an undisturbed reader of the whole body in the concurrent model; it returns the whole body exactly if the stream has no error, progress events carry prefix sums, and on an error the event state stays with the bytes read so far |
| `BodyRegistry.Registry.DropBodyStream` | rust/src/client.rs:489-492 | a call is the dropping step of the concurrent model: stream and event state are gone and nothing is reported |
| `BodyRegistry.ReadingChunkRuns` | rust/src/client.rs:415-448 | undisturbed, the steps of a chunk read can all be taken and come to a poll by a sole reader |
| `BodyRegistry.ReadingAllRuns` | rust/src/client.rs:451-471 | undisturbed, a read of the whole body can be run poll by poll, once for every item before the first error and once more |
| `BodyRegistry.AllReadEnds` | rust/src/client.rs:460-486 | such a read ends with the whole body and completion, or at the first error with exact progress, the event state kept and its bytes forgotten |
| `LookupCaches.ResultsBelongToTheirKey` | rust/src/client.rs:530-582 | over every interleaving of lookups, insertions, evictions and replacements, a lookup returns an object made for its own key, and lookups of different keys never share one, so no session gets the jar of another |
| `LookupCaches.NextCall` | rust/src/client.rs:530-582 | what the next call for a key gets after any step: a new object after an eviction, the replacement or the inserted one, otherwise what it would have got before |
| `LookupCaches.PrivateStaysPrivate` | rust/src/client.rs:598-602 | over every interleaving, the jar of an ephemeral request is never in the cache and no other request gets it |
| `LookupCaches.CallsAgreeIfInsertedOnce` | rust/src/client.rs:530-540 | over every schedule that does not replace the entry, however often it is evicted, all returned calls for a key got the same object if and only if at most one insertion for the key took place |
| `LookupCaches.CalmCallsAgree` | rust/src/client.rs:530-540 | in particular, if no call for a key begins between miss and insertion of another one, and the entry stays, at most one insertion takes place and all calls return the cached object |
| `LookupCaches.OverlappingMissesDiverge` | rust/src/client.rs:530-540 | two calls that both missed return different objects and the cache keeps the one inserted last |
| `LookupCaches.FirstCallsCanRace` | rust/src/client.rs:530-540 | two concurrent first calls for one session can return different jars |
| `EphemeralClients.BuildMeetsRequest` | rust/src/client.rs:163-193 | building from the key gives a client exactly if one can meet the request, and then the one with all settings that the request asks for: the key holds every field the builder reads |
| `EphemeralClients.CachedClientMeetsRequest` | rust/src/client.rs:573-582 | over every interleaving in which calls insert what they built and fail when they cannot build, what a request gets from the cache is a client with the settings of that request |
| `EphemeralClients.FailedRequestHasNoClient` | rust/src/client.rs:573-582 | under the same conditions a request fails only if no client can meet it |
| `EphemeralClients.DifferentClientsDifferentKeys` | rust/src/client.rs:1081-1111 | requests that need different clients, in their time-outs or trust store for example, never share a key |
| `FrameCodec.UnmaskInvolution` | src/test/helpers/local-test-server.ts:697-704 | unmasking twice with one key gives the payload back, as section 5.3 of RFC 6455 requires |
| `FrameCodec.UnmaskedBits` | src/test/helpers/local-test-server.ts:697-704 | bit by bit, byte i of the result is the sum modulo 2 of byte i of the payload and byte i modulo 4 of the key |
| `FrameCodec.ParseIgnoresRest` | src/test/helpers/local-test-server.ts:588-624 | a complete frame is parsed the same whatever follows it |
| `FrameCodec.BytesAccountedFor` | src/test/helpers/local-test-server.ts:588-624 | handled bytes and leftover are the bytes received, and no complete frame is left over |
| `FrameCodec.ParseInInstalments` | src/test/helpers/local-test-server.ts:555-624 | parsing a stream in two instalments gives the same frames and leftover as parsing it at once |
| `FrameCodec.RoundTrip` | src/test/helpers/local-test-server.ts:668-695 | reading back a written frame gives its payload and its opcode modulo 16, for every length below 2^53 and whatever follows |
| `FrameCodec.MaskedRoundTrip` | src/test/helpers/local-test-server.ts:588-624 | the same for frames masked with any key |
| `FrameCodec.WrittenBytes` | src/test/helpers/local-test-server.ts:668-695 | a written frame byte by byte: FIN and opcode, the shortest of the three forms of the length, most significant byte first, then the payload |
| `FrameCodec.EveryFrameParses` | src/test/helpers/local-test-server.ts:588-624 | every frame of section 5.2, with any first byte, any of the three length forms and a key or none, parses to its opcode and its unmasked payload, whatever follows |
| `FrameCodec.EveryParseIsAFrame` | src/test/helpers/local-test-server.ts:588-624 | and nothing else parses: the bytes consumed are such a frame of the payload returned |
| `FrameCodec.EncodingIsShortest` | src/test/helpers/local-test-server.ts:668-691 | no frame that parses to the same payload is shorter than the one `sendFrame` writes |
| `FrameCodec.RoundingIsHarmless` | src/test/helpers/local-test-server.ts:605-617 | rounding a 64-bit length to a JavaScript number never changes whether a buffer holds the frame |
| `FrameCodec.JsNumberMeans` | src/test/helpers/local-test-server.ts:604-607 | a 64-bit length becomes the nearest number with 53 significant bits, of two as near the even one, and stays itself below 2^53 |
| `EchoSession.ChunkingIndependence` | src/test/helpers/local-test-server.ts:555-625 | however a byte stream is cut into data events, the endpoint ends in the same state as after one delivery |
| `EchoSession.HandleAllReplies` | src/test/helpers/local-test-server.ts:627-666 | handling frames writes the replies to them: echoes, pongs and a close, up to the first close or unsupported opcode |
| `EchoSession.ReplyByOpcode` | src/test/helpers/local-test-server.ts:632-665 | 1 and 2 are echoed, 9 is answered by 10 with the same payload, 10 by nothing, 8 by the same close and any other opcode by an empty close; the last two end the conversation |
| `EchoSession.OpeningFrames` | src/test/helpers/local-test-server.ts:579-586 | the opening is the welcome as a text frame and then a frame of the requested length, of bytes 0xab in a binary or 0x78 in a text frame |
| `EchoSession.ClientStreamParses` | src/test/helpers/local-test-server.ts:588-624 | a stream of masked client frames parses to exactly those frames |
| `EchoSession.EchoConversation` | src/test/helpers/local-test-server.ts:555-666 | for every byte stream a client may send and every chunking of it, the bytes written parse to the opening frames followed by the replies to the frames in the stream, and the bytes of an unfinished frame stay in the buffer |
| `EchoSession.EchoOfMaskedFrames` | src/test/helpers/local-test-server.ts:555-666 | a client that masks its frames with any keys reads back the opening frames and the replies to those very frames |
| `EchoSession.ServerCloseIsFinal` | src/test/helpers/local-test-server.ts:568-577 | after a close by the server, that close with its code in two bytes, high byte first, and its reason is the only frame ever written, whatever the client sends |
| `EchoSession.CloseReplyIsLast` | src/test/helpers/local-test-server.ts:627-665 | only the last reply can be a close frame, and there is one exactly if handling the frames ended the socket |
| `EchoSession.WrittenCloseIsLast` | src/test/helpers/local-test-server.ts:555-665 | of everything ever written, over every sequence of data and close events of the socket and whether or not the server closes at once, at most one frame is a close frame; it is the last one, and it is there exactly if the endpoint ended the socket |
| `EchoSession.OnlyDataBeforeCloseCounts` | src/test/helpers/local-test-server.ts:555-562 | what is written over any sequence of data and close events is what the data before the first close event alone causes |
| `EchoSession.ClosedStaysSilent` | src/test/helpers/local-test-server.ts:627-630 | a closed endpoint writes nothing more, whatever still arrives |
| `EchoSession.WriteBigEndian` | src/test/helpers/local-test-server.ts:685-689 | the bytes of the number, most significant first, stand at the offset and no other byte changes |
| `EchoSession.Endpoint.constructor` | src/test/helpers/local-test-server.ts:552-586 | a new endpoint has written the server's close, or else the welcome and the large frame that were asked for |
| `EchoSession.Endpoint.SendFrame` | src/test/helpers/local-test-server.ts:668-695 | the buffer filled in place is the encoding that the round trip is about |
| `EchoSession.Endpoint.Unmask` | src/test/helpers/local-test-server.ts:697-704 | bit k of every result byte i is the sum modulo 2 of bit k of payload byte i and of key byte i modulo 4 |
| `EchoSession.Endpoint.HandleFrame` | src/test/helpers/local-test-server.ts:627-666 | the method does to the endpoint what the laws on session values are about |
| `EchoSession.Endpoint.ParseFrames` | src/test/helpers/local-test-server.ts:588-625 | the loop handles every complete frame of the buffer, in order, and keeps the bytes behind them; it ends |
| `EchoSession.Endpoint.OnData` | src/test/helpers/local-test-server.ts:555-558 | a data event is one delivery in the sense of `ChunkingIndependence` |
| `EchoSession.Endpoint.OnClose` | src/test/helpers/local-test-server.ts:560-562 | after the peer has closed, no sequence of further data and close events makes the endpoint write anything more |
| `EmulationHeaders.MergeHeaderMap` | rust/src/custom_emulation.rs:334-351 | one pass with a set of removed names meets the two-phase meaning: names in the overlay have the overlay's values in order, all others the preset's; an invalid entry stops it with what came before merged |
| `EmulationHeaders.ParsingMeans` | rust/src/custom_emulation.rs:337-341 | exactly the valid entries before the first invalid one are merged, as parsed; the error names that one and is about its name if the name is invalid already |
| `EmulationHeaders.ValuesAreThoseNamed` | rust/src/custom_emulation.rs:343-347 | the overlay's values of a name are those of exactly the entries with that name, in their order |
| `EmulationHeaders.BuildHeaderMap` | rust/src/custom_emulation.rs:353-363 | building is merging into an empty map |
| `EmulationHeaders.SecondOverlayWins` | rust/src/custom_emulation.rs:334-351 | two merges are one merge in which the second overlay wins name by name |
| `EmulationHeaders.MergingTwiceIsOnce` | rust/src/custom_emulation.rs:334-351 | merging an overlay twice is merging it once |
| `EmulationHeaders.DrainOrdered` | rust/src/custom_emulation.rs:240-245 | draining lists the headers named by the original order first, in that order and spelling, a repeated name adding nothing, and leaves exactly the others |
| `EmulationHeaders.OrderedPartSpelling` | rust/src/custom_emulation.rs:240-245 | every listed name is spelled as where the original order mentions it first, in any case of its letters, and the names come in the order of those places |
| `EmulationHeaders.DrainRest` | rust/src/custom_emulation.rs:247-249 | the rest follows, under its lower-case names, each name's values in order |
| `EmulationHeaders.PresetHeaders` | rust/src/custom_emulation.rs:228-252 | the listing is a permutation of the preset: every name and value occurs as often as in the preset and nothing else does; it starts with the ordered part, and under every name the values keep their order |
| `EmulationHeaders.ListingIsPermutation` | rust/src/custom_emulation.rs:236-251 | a list of names of the preset that has all values of each has exactly the multiset of the preset's entries |
| `EmulationHeaders.ListedAreThoseNamed` | rust/src/custom_emulation.rs:236-251 | the values listed under a name are those of exactly the entries with that name in any case of its letters, in their order |
| `EmulationOrders.BuildOrigHeaderMap` | rust/src/custom_emulation.rs:365-387 | accepts exactly the lists of valid names that differ after trimming and ignoring case, and keeps them trimmed and in order; otherwise it names the first faulty entry and whether it is invalid or a repetition |
| `EmulationOrders.ValidOrigHeadersMeans` | rust/src/custom_emulation.rs:370-380 | two names repeat each other exactly if, trimmed, they are the same letter by letter in whatever case |
| `EmulationOrders.BuildPseudoOrder` | rust/src/custom_emulation.rs:606-619 | accepts exactly the lists of valid, different ids and returns them in order, at most five; otherwise it names the first faulty entry and whether it is invalid or a repetition |
| `EmulationOrders.PseudoIdsInjective` | rust/src/custom_emulation.rs:705-714 | different accepted strings are different ids |
| `EmulationOrders.PseudoIdNames` | rust/src/custom_emulation.rs:705-714 | the five accepted strings, each its own id |
| `EmulationOrders.SettingIdNames` | rust/src/custom_emulation.rs:716-728 | the eight accepted strings, each its own id |
| `EmulationOrders.DistinctStringsAreDistinctIds` | rust/src/custom_emulation.rs:606-619 | refusing repeated strings is refusing repeated ids |
| `EmulationOrders.BuildSettingsOrder` | rust/src/custom_emulation.rs:621-634 | accepts exactly the lists of valid, different setting ids and returns them in order, at most eight; otherwise it names the first faulty entry and whether it is invalid or a repetition |
| `EmulationOrders.BuildPriorities` | rust/src/custom_emulation.rs:636-666 | accepts exactly the lists with positive, different stream ids and keeps every priority in place; otherwise it names the first faulty entry and whether it is invalid or a repetition |
| `EmulationOrders.DistinctBound` | rust/src/custom_emulation.rs:606-634 | a list without duplicates is no longer than the set it draws from |
| `ProfileAliases.CompareVersions` | rust/build.rs:83-95 | decides the order in which the first differing segment counts and missing segments are zero |
| `ProfileAliases.Trichotomy` | rust/build.rs:83-95 | of any two versions exactly one of older, newer and same holds |
| `ProfileAliases.OlderTransitive` | rust/build.rs:83-95 | older is transitive |
| `ProfileAliases.SameVersionIgnoresTrailingZeros` | rust/build.rs:83-95 | versions are the same exactly if they differ in trailing zeros only |
| `ProfileAliases.DeriveAliases` | rust/build.rs:101-124 | in terms of labels as they are written, family, underscore and dotted decimal numbers: the aliases come strictly sorted; exactly the families of some label that are not themselves profiles have one; it is the first of the labels of exactly that family that no other exceeds in the first differing number, as the test at src/test/http/profiles.spec.ts:93-121 asks |
| `ProfileAliases.SplitLabelMeans` | rust/build.rs:67-79 | a label splits into a family and numbers if and only if it is that family, not empty, an underscore and decimal numerals of those numbers joined by dots, each within 32 bits, with an optional plus sign and leading zeros |
| `ProfileAliases.LabelIsSplit` | rust/build.rs:67-79 | a label printed from a family and numbers within 32 bits splits into them again |
| `ProfileAliases.SortedKeys` | rust/build.rs:118-123 | the keys of an ordered map in strictly rising order, each once |
| `ProfileAliases.NewestIsUnique` | rust/build.rs:97-116 | a family has one first newest profile |
| `ProfileAliases.ReorderingKeepsVersion` | rust/build.rs:97-116 | reordering the profiles changes an alias only to a profile of the same version |
| `CookiePairs.ParsingIsHomomorphic` | rust/src/client.rs:1323-1336 | for all strings, parsing segments joined by the separator is concatenating their parses |
| `CookiePairs.ParsingSplits` | rust/src/client.rs:1323-1336 | wherever a semicolon and a space stand, the string is parsed as what is before them and what is behind them |
| `CookiePairs.PieceWithEquals` | rust/src/client.rs:1323-1336 | any piece without that separator: up to the first equals sign it is the name, behind it the value, both trimmed, and nothing if the name is blank |
| `CookiePairs.PieceWithoutEquals` | rust/src/client.rs:1323-1336 | a piece without an equals sign is a name with an empty value |
| `CookiePairs.ParsedIsWellFormed` | rust/src/client.rs:1323-1336 | every parsed pair is one that survives printing and parsing |
| `CookiePairs.PairRoundTrip` | rust/src/client.rs:1323-1336 | a printed pair is parsed back as itself if and only if name and value are trimmed and free of the separator and the name is neither empty nor has an equals sign |
| `CookiePairs.HeaderRoundTrip` | rust/src/client.rs:1323-1336 | a printed and joined list of such pairs is parsed back as itself, even if values contain equals signs |
| `CookiePairs.StandardPairsSurvive` | rust/src/client.rs:1323-1336 | every list of pairs in the grammar of section 4.2.1 of RFC 6265 survives printing and parsing |
| `CookiePairs.MergeCookieHeaders` | rust/src/websocket.rs:184-223 | all other headers stay in order, and one cookie header at most follows them |
| `CookiePairs.MergedHeaderKeepsPairs` | rust/src/websocket.rs:184-223 | the one cookie header is the last header, and its pairs are the explicit ones followed by the jar's |
| `CookiePairs.EachHeader` | rust/src/websocket.rs:187-196 | a header named cookie in any case contributes its trimmed value, unless blank, at its place and is dropped; any other stays as it is at its place |
| `CookiePairs.EachJarValue` | rust/src/websocket.rs:198-219 | each value of the jar contributes its trimmed text, unless blank or not visible ASCII, at its place |
| `CookiePairs.JoinConcat` | rust/src/websocket.rs:220-222 | segments are joined by a semicolon and a space, and by nothing else |
| `CookieExpiry.ImportIsExact` | rust/src/client.rs:1473-1481 | short of overflow an expiry is accepted exactly if it is in range, with its exact nanoseconds |
| `CookieExpiry.TrueNanosMeans` | rust/src/client.rs:1473-1477 | those nanoseconds are a million times the milliseconds, rounded toward zero |
| `CookieExpiry.RangeSpelled` | rust/src/client.rs:1478-1481 | the accepted times are those of the Gregorian years -9999 to 9999 and the width is that of 128 bits |
| `CookieExpiry.WhenImportIsFaithful` | rust/src/client.rs:1473-1481 | the import is right if and only if the whole milliseconds fit 128 bits and no accepted time lies a nonzero multiple of 2^128 nanoseconds from the true one |
| `CookieExpiry.SaturatedAbove` | rust/src/client.rs:1475-1481 | every time beyond 2^127 - 1 milliseconds is out of range, yet is accepted as one at most a millisecond before the epoch |
| `CookieExpiry.SaturatedBelow` | rust/src/client.rs:1475-1481 | every time below -2^127 milliseconds is out of range, yet is accepted as the epoch up to its fraction |
| `CookieExpiry.FaithfulWithoutOverflow` | rust/src/client.rs:1473-1481 | only times whose product overflows go wrong |
| `CookieExpiry.HugeExpiryIsAccepted` | rust/src/client.rs:1475-1479 | an expiry far out of range that is accepted as the epoch |
| `CookieExpiry.WholeMillisRoundTrip` | rust/src/client.rs:1303-1482 | every whole millisecond from the epoch to the end of year 9999 survives import and export |
| `CookieExpiry.ExportMeans` | rust/src/client.rs:1303-1307 | an export is the number of whole milliseconds since the epoch, and absent before it |
| `CookieExpiry.ExportImportExport` | rust/src/client.rs:1303-1482 | export, import, export gives what the first export gave |
| `CookieExpiry.ExportOfImport` | rust/src/client.rs:1303-1482 | every accepted expiry is exported as its whole milliseconds if and only if it did not overflow and lies less than a nanosecond before the epoch |
| `CookieRestore.PrepareBatch` | rust/src/client.rs:1401-1486 | succeeds exactly if every cookie of the batch is valid, and otherwise reports the first invalid one |
| `CookieRestore.PrepareMeans` | rust/src/client.rs:1402-1486 | preparation accepts exactly the valid inputs and restores every field |
| `CookieRestore.PrepareErrors` | rust/src/client.rs:1403-1483 | which fault of an input is reported: name, scope, URI, sameSite and expiry are looked at in this order |
| `CookieRestore.SessionManager.SetSessionCookies` | rust/src/client.rs:1391-1493 | all or nothing: it succeeds exactly on batches whose every input has a name, a host, a path that makes a URI with it, a known sameSite word or none and a finite expiry in range or none; then that session's jar ends with the batch, in order and field by field: trimmed name, value, trimmed domain, path, secure, httpOnly, sameSite, expiry in exact nanoseconds, and an https URI of host and path; otherwise no jar and no session changes |
| `CookieRestore.SessionManager.JarFor` | rust/src/client.rs:530-540 | with no other call between its lookup and its insertion, a known session keeps its jar, an unknown one gets a new and empty one, and no two sessions share a jar |
| `CookieRestore.SessionManager.JarForRequest` | rust/src/client.rs:598-602 | an ephemeral request gets a new jar that no session has, any other request the jar of its session |
| `CookieRestore.SessionManager.CreateSession` | rust/src/client.rs:542-548 | a created session has a new, empty jar that no other session has |
| `CookieRestore.SessionManager.ClearSession` | rust/src/client.rs:550-557 | clearing empties the jar of a known session only and reports an unknown one |
| `CookieRestore.SessionManager.DropSession` | rust/src/client.rs:559-561 | dropping forgets that session and no other |
| `Text.LowerEqualMeans` | rust/src/websocket.rs:188 | comparing without regard to case: letter by letter the same, or the two cases of one letter from A to Z |
| `Text.TrimSplits` | rust/src/client.rs:1327-1328 | trimming takes white space from both ends, nothing else, and leaves none there |
| `Text.WhiteSpaceCodes` | rust/src/client.rs:1327-1328 | the code points that count as white space |

## Left out

- Steps are atomic between two await points of a task; accesses of other threads to the shared maps within one such step are not interleaved, nor are closures that Neon discards when the process ends.
- The consumer task and the JavaScript thread are not aborted, and the permit semaphore is never closed, as nothing in the code does either.
- WebSocketPipeline takes the socket as a finite script, so an endless conversation is covered by its finite prefixes only.
- BodyRegistry.Registry.ReadBodyAll: calls run one at a time in the class; concurrent readers, evictions and drops are in `BodyStreams`.
- The counter of downloaded bytes is unbounded, where the code's is 64 bits wide.
- CookieExpiry.ImportIsExact: milliseconds and their fraction are real numbers, so the rounding of the fraction in floating point is not modelled; whole milliseconds are exact in both.
- EchoSession.Endpoint.constructor: a close code above 65535, which `writeUInt16BE` refuses, is written modulo 65536.
- EchoSession.Endpoint.OnData: buffers stay below 2^53 bytes, beyond which JavaScript has no buffers.
- CookieRestore.SessionManager.JarFor: atomic in the class; the gap between its lookup and its insertion is in `LookupCaches`, and idle eviction too.
- One request at a time: two live requests with one request id share one entry of the cancellation registry in the code and are not modelled.
- Status, URL, time stamps, diagnostics and error texts in events and responses.
- Network, TLS, proxies, redirects, time-outs, trust stores and building clients: library calls; a failed send or a failed stream item stands for all their errors.
- The cookie jar's matching of domains and paths and URI parsing: the jar records what is added, the URI library and the parsers of header names and values are parameters.
- `OrigHeaderMap` is an ordered list of names, and the merge of two of them in `apply_payload` is not modelled.
- The forwarding of option fields in `build_tls_options`, `build_http1_options`, `build_http2_options` and the option parsing of `lib.rs`: copying field by field.
- Hash-derived pool groups, transports by id, session id generation and idle timers as such.
- The echo endpoint's destroy on a socket error, and all HTTP routes of the test server.
- The TypeScript wrapper `src/wreq-js.ts` is not part of this model.
