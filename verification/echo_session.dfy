/**
 The echo endpoint of the test server, `setupEchoWebSocket`: bytes arrive in chunks of any size,
 frames are parsed out of a growing buffer, and each one is answered. First as functions on a session
 value with the laws they obey, then as the object the server keeps, method by method.
 */
module EchoSession {
  import opened Wrappers
  import opened Sequences
  import opened FrameCodec

  const TEXT: nat := 0x1
  const BINARY: nat := 0x2
  const CLOSE: nat := 0x8
  const PING: nat := 0x9
  const PONG: nat := 0xa

  /** `written` lists the buffers passed to `socket.write`; `ended` says that `socket.end` was called. */
  datatype Session = Session(buffer: seq<Byte>, closed: bool, written: seq<seq<Byte>>, ended: bool)

  function Write(s: Session, opcode: nat, data: seq<Byte>): Session {
    s.(written := s.written + [EncodeFrame(opcode, data)])
  }

  function CloseWith(s: Session, data: seq<Byte>): Session {
    Write(s, CLOSE, data).(closed := true, ended := true)
  }

  function Handle(s: Session, frame: Frame): Session {
    if s.closed then s
    else if frame.opcode == TEXT || frame.opcode == BINARY then Write(s, frame.opcode, frame.data)
    else if frame.opcode == CLOSE then CloseWith(s, frame.data)
    else if frame.opcode == PING then Write(s, PONG, frame.data)
    else if frame.opcode == PONG then s
    else CloseWith(s, [])
  }

  function HandleAll(s: Session, frames: seq<Frame>): Session
    decreases |frames|
  {
    if frames == [] then s else HandleAll(Handle(s, frames[0]), frames[1..])
  }

  /** Handle every complete frame in the buffer and keep the bytes behind them. */
  function Settle(s: Session): Session {
    HandleAll(s, Frames(s.buffer)).(buffer := Leftover(s.buffer))
  }

  /** One data event. */
  function Feed(s: Session, chunk: seq<Byte>): Session {
    Settle(s.(buffer := s.buffer + chunk))
  }

  function FeedAll(s: Session, chunks: seq<seq<Byte>>): Session
    decreases |chunks|
  {
    if chunks == [] then s else FeedAll(Feed(s, chunks[0]), chunks[1..])
  }

  datatype ServerClose = ServerClose(code: nat, reason: seq<Byte>)

  function ClosePayload(close: ServerClose): seq<Byte> {
    WriteUInt(close.code, 2) + close.reason
  }

  /** A frame of the requested size, for clients that limit what they accept. */
  datatype LargeFrame = LargeFrame(bytes: nat, binary: bool)

  function LargeToFrame(large: LargeFrame): Frame {
    Frame(if large.binary then BINARY else TEXT, seq(large.bytes, _ => if large.binary then 0xab else 0x78))
  }

  /** What the endpoint sends on its own account when the connection opens. */
  function Opening(welcome: Option<seq<Byte>>, large: Option<LargeFrame>): seq<Frame> {
    (match welcome case Some(text) => [Frame(TEXT, text)] case None => [])
    + (match large case Some(l) => [LargeToFrame(l)] case None => [])
  }

  function EncodeAll(frames: seq<Frame>): seq<seq<Byte>> {
    if frames == [] then []
    else [EncodeFrame(frames[0].opcode, frames[0].data)] + EncodeAll(frames[1..])
  }

  function Open(close: Option<ServerClose>, welcome: Option<seq<Byte>>, large: Option<LargeFrame>): Session {
    match close
    case Some(event) => Session([], true, [EncodeFrame(CLOSE, ClosePayload(event))], true)
    case None => Session([], false, EncodeAll(Opening(welcome, large)), false)
  }

  // ----- Chunking does not matter -----

  lemma HandleKeepsBuffer(s: Session, frame: Frame, b: seq<Byte>)
    ensures Handle(s, frame).buffer == s.buffer
    ensures Handle(s.(buffer := b), frame) == Handle(s, frame).(buffer := b)
  {
  }

  lemma {:induction false} HandleAllKeepsBuffer(s: Session, frames: seq<Frame>, b: seq<Byte>)
    ensures HandleAll(s.(buffer := b), frames) == HandleAll(s, frames).(buffer := b)
    decreases |frames|
  {
    if frames != [] {
      HandleKeepsBuffer(s, frames[0], b);
      HandleAllKeepsBuffer(Handle(s, frames[0]), frames[1..], b);
    }
  }

  lemma {:induction false} HandleAllConcat(s: Session, first: seq<Frame>, second: seq<Frame>)
    ensures HandleAll(s, first + second) == HandleAll(HandleAll(s, first), second)
    decreases |first|
  {
    if first == [] {
      assert first + second == second;
    } else {
      assert (first + second)[1..] == first[1..] + second;
      HandleAllConcat(Handle(s, first[0]), first[1..], second);
    }
  }

  /** Bytes that arrive later can wait until the earlier ones have been handled. */
  lemma SettleTwice(s: Session, more: seq<Byte>)
    ensures Feed(Settle(s), more) == Feed(s, more)
  {
    var first, rest := Frames(s.buffer), Leftover(s.buffer) + more;
    var handled := HandleAll(s, first);
    ParseInInstalments(s.buffer, more);
    HandleAllKeepsBuffer(handled, Frames(rest), rest);
    HandleAllConcat(s, first, Frames(rest));
    HandleAllKeepsBuffer(s, first + Frames(rest), s.buffer + more);
    assert Feed(Settle(s), more) == HandleAll(handled.(buffer := rest), Frames(rest)).(buffer := Leftover(rest));
  }

  lemma FeedTwice(s: Session, first: seq<Byte>, second: seq<Byte>)
    ensures Feed(Feed(s, first), second) == Feed(s, first + second)
  {
    SettleTwice(s.(buffer := s.buffer + first), second);
    assert s.buffer + first + second == s.buffer + (first + second);
  }

  /** Nothing complete is waiting in the buffer. */
  predicate Settled(s: Session) {
    ParseFrame(s.buffer).Incomplete?
  }

  lemma FeedSettles(s: Session, chunk: seq<Byte>)
    ensures Settled(Feed(s, chunk))
  {
    BytesAccountedFor(s.buffer + chunk);
    assert Feed(s, chunk).buffer == Leftover(s.buffer + chunk);
  }

  /** However a byte stream is cut into data events, the endpoint ends in the same state. */
  lemma {:induction false} ChunkingIndependence(s: Session, chunks: seq<seq<Byte>>)
    requires Settled(s)
    ensures FeedAll(s, chunks) == Feed(s, Flatten(chunks))
    decreases |chunks|
  {
    if chunks == [] {
      assert s.buffer + [] == s.buffer;
    } else {
      FeedSettles(s, chunks[0]);
      ChunkingIndependence(Feed(s, chunks[0]), chunks[1..]);
      FeedTwice(s, chunks[0], Flatten(chunks[1..]));
    }
  }

  // ----- What the peer reads -----

  function Reply(frame: Frame): seq<Frame> {
    if frame.opcode == TEXT || frame.opcode == BINARY then [frame]
    else if frame.opcode == PING then [Frame(PONG, frame.data)]
    else if frame.opcode == PONG then []
    else if frame.opcode == CLOSE then [Frame(CLOSE, frame.data)]
    else [Frame(CLOSE, [])]
  }

  /** A close frame or an unsupported opcode ends the conversation. */
  predicate EndsConversation(frame: Frame) {
    frame.opcode !in {TEXT, BINARY, PING, PONG}
  }

  /** The answers to a conversation, up to its first close frame or unsupported opcode. */
  function Replies(frames: seq<Frame>): seq<Frame> {
    if frames == [] then []
    else Reply(frames[0]) + if EndsConversation(frames[0]) then [] else Replies(frames[1..])
  }

  /** By opcode: text and binary are echoed, a ping gets a pong, a close is returned, anything else is closed on. */
  lemma ReplyByOpcode(frame: Frame)
    ensures frame.opcode in {0x1, 0x2, 0x8} ==> Reply(frame) == [Frame(frame.opcode, frame.data)]
    ensures frame.opcode == 0x9 ==> Reply(frame) == [Frame(0xa, frame.data)]
    ensures frame.opcode == 0xa ==> Reply(frame) == []
    ensures frame.opcode !in {0x1, 0x2, 0x8, 0x9, 0xa} ==> Reply(frame) == [Frame(0x8, [])]
    ensures EndsConversation(frame) <==> frame.opcode !in {0x1, 0x2, 0x9, 0xa}
  {
  }

  /** The opening is the welcome as text and then as many bytes as asked for, all alike. */
  lemma OpeningFrames(welcome: Option<seq<Byte>>, large: Option<LargeFrame>)
    ensures var opening := Opening(welcome, large);
      && |opening| == (if welcome.Some? then 1 else 0) + (if large.Some? then 1 else 0)
      && (welcome.Some? ==> opening[0] == Frame(0x1, welcome.value))
      && (large.Some? ==>
            var frame := opening[|opening| - 1];
            && frame.opcode == (if large.value.binary then 0x2 else 0x1)
            && |frame.data| == large.value.bytes
            && forall i :: 0 <= i < |frame.data| ==> frame.data[i] == if large.value.binary then 0xab else 0x78)
  {
  }

  lemma {:induction false} ClosedHandlesNothing(s: Session, frames: seq<Frame>)
    requires s.closed
    ensures HandleAll(s, frames) == s
    decreases |frames|
  {
    if frames != [] {
      ClosedHandlesNothing(s, frames[1..]);
    }
  }

  lemma EncodeOne(frame: Frame)
    ensures EncodeAll([frame]) == [EncodeFrame(frame.opcode, frame.data)]
  {
  }

  lemma {:induction false} EncodeAllConcat(a: seq<Frame>, b: seq<Frame>)
    ensures EncodeAll(a + b) == EncodeAll(a) + EncodeAll(b)
  {
    if a == [] {
      assert a + b == b;
    } else {
      assert (a + b)[1..] == a[1..] + b;
      EncodeAllConcat(a[1..], b);
    }
  }

  lemma HandleReplies(s: Session, frame: Frame)
    requires !s.closed
    ensures Handle(s, frame).written == s.written + EncodeAll(Reply(frame))
    ensures Handle(s, frame).closed <==> EndsConversation(frame)
  {
  }

  lemma {:induction false} HandleAllReplies(s: Session, frames: seq<Frame>)
    requires !s.closed
    ensures HandleAll(s, frames).written == s.written + EncodeAll(Replies(frames))
    decreases |frames|
  {
    if frames != [] {
      var next, rest := Handle(s, frames[0]), frames[1..];
      HandleReplies(s, frames[0]);
      if next.closed {
        ClosedHandlesNothing(next, rest);
        assert Replies(frames) == Reply(frames[0]);
      } else {
        HandleAllReplies(next, rest);
        EncodeAllConcat(Reply(frames[0]), Replies(rest));
        Associate(s.written, EncodeAll(Reply(frames[0])), EncodeAll(Replies(rest)));
      }
    }
  }

  /** A frame that fits a buffer and whose opcode fits its four bits. */
  predicate Sendable(frame: Frame) {
    frame.opcode < 16 && |frame.data| < BUFFER_LIMIT
  }

  predicate AllSendable(frames: seq<Frame>) {
    forall i :: 0 <= i < |frames| ==> Sendable(frames[i])
  }

  lemma ReadFirst(first: seq<Byte>, frame: Frame, rest: seq<Byte>)
    requires ParseFrame(first + rest) == Complete(frame, |first|)
    ensures Frames(first + rest) == [frame] + Frames(rest) && Leftover(first + rest) == Leftover(rest)
  {
    assert (first + rest)[|first|..] == rest;
    TakeFrame(first + rest, frame, |first|);
  }

  /** A stream of printed frames parses back to exactly those frames, with nothing left over. */
  lemma {:induction false} StreamRoundTrip(frames: seq<Frame>)
    requires AllSendable(frames)
    ensures Frames(Flatten(EncodeAll(frames))) == frames && Leftover(Flatten(EncodeAll(frames))) == []
  {
    if frames == [] {
    } else {
      var first := EncodeFrame(frames[0].opcode, frames[0].data);
      var rest := Flatten(EncodeAll(frames[1..]));
      assert Flatten(EncodeAll(frames)) == first + rest;
      RoundTrip(frames[0].opcode, frames[0].data, rest);
      ReadFirst(first, frames[0], rest);
      StreamRoundTrip(frames[1..]);
    }
  }

  predicate Keys(keys: seq<seq<Byte>>, n: nat) {
    |keys| == n && forall i :: 0 <= i < n ==> |keys[i]| == 4
  }

  /** The bytes a client sends: each frame masked with its own key. */
  function ClientBytes(frames: seq<Frame>, keys: seq<seq<Byte>>): seq<Byte>
    requires Keys(keys, |frames|)
  {
    if frames == [] then []
    else EncodeMasked(frames[0].opcode, keys[0], frames[0].data) + ClientBytes(frames[1..], keys[1..])
  }

  lemma FirstClientFrame(frame: Frame, key: seq<Byte>, rest: seq<Byte>)
    requires Sendable(frame) && |key| == 4
    ensures var first := EncodeMasked(frame.opcode, key, frame.data);
      Frames(first + rest) == [frame] + Frames(rest) && Leftover(first + rest) == Leftover(rest)
  {
    MaskedRoundTrip(frame.opcode, key, frame.data, rest);
    ReadFirst(EncodeMasked(frame.opcode, key, frame.data), frame, rest);
  }

  lemma {:induction false} ClientStreamParses(frames: seq<Frame>, keys: seq<seq<Byte>>)
    requires AllSendable(frames) && Keys(keys, |frames|)
    ensures Frames(ClientBytes(frames, keys)) == frames && Leftover(ClientBytes(frames, keys)) == []
    decreases |frames|
  {
    if frames == [] {
    } else {
      FirstClientFrame(frames[0], keys[0], ClientBytes(frames[1..], keys[1..]));
      ClientStreamParses(frames[1..], keys[1..]);
      assert [frames[0]] + frames[1..] == frames;
    }
  }

  lemma {:induction false} RepliesSendable(frames: seq<Frame>)
    requires AllSendable(frames)
    ensures AllSendable(Replies(frames))
  {
    if frames != [] {
      RepliesSendable(frames[1..]);
    }
  }

  /** Frames parsed out of a stream that fits a buffer can be sent back. */
  lemma {:induction false} FramesSendable(buffer: seq<Byte>)
    requires |buffer| < BUFFER_LIMIT
    ensures AllSendable(Frames(buffer))
    decreases |buffer|
  {
    match ParseFrame(buffer)
    case Incomplete =>
    case Complete(frame, n) =>
      FramesSendable(buffer[n..]);
      TakeFrame(buffer, frame, n);
      assert Sendable(frame);
  }

  lemma EchoStream(welcome: Option<seq<Byte>>, large: Option<LargeFrame>, chunks: seq<seq<Byte>>)
    requires AllSendable(Opening(welcome, large)) && AllSendable(Frames(Flatten(chunks)))
    ensures var end := FeedAll(Open(None, welcome, large), chunks);
      && Frames(Flatten(end.written)) == Opening(welcome, large) + Replies(Frames(Flatten(chunks)))
      && Leftover(Flatten(end.written)) == []
      && end.buffer == Leftover(Flatten(chunks))
  {
    var start, opening, frames := Open(None, welcome, large), Opening(welcome, large), Frames(Flatten(chunks));
    var received := start.(buffer := Flatten(chunks));
    ChunkingIndependence(start, chunks);
    assert start.buffer + Flatten(chunks) == received.buffer;
    HandleAllReplies(received, frames);
    EncodeAllConcat(opening, Replies(frames));
    RepliesSendable(frames);
    StreamRoundTrip(opening + Replies(frames));
  }

  /**
   The whole conversation, for every byte stream a client may send, masked or not, complete or not, and
   however it is cut into data events: what the client reads back is the opening frames followed by the
   replies to the frames in the stream, and the endpoint keeps exactly the bytes of an unfinished frame.
   */
  lemma EchoConversation(welcome: Option<seq<Byte>>, large: Option<LargeFrame>, chunks: seq<seq<Byte>>)
    requires AllSendable(Opening(welcome, large)) && |Flatten(chunks)| < BUFFER_LIMIT
    ensures var end := FeedAll(Open(None, welcome, large), chunks);
      && Frames(Flatten(end.written)) == Opening(welcome, large) + Replies(Frames(Flatten(chunks)))
      && Leftover(Flatten(end.written)) == []
      && end.buffer == Leftover(Flatten(chunks))
  {
    FramesSendable(Flatten(chunks));
    EchoStream(welcome, large, chunks);
  }

  /** A client that masks its frames, each with any key, reads back the replies to those very frames. */
  lemma EchoOfMaskedFrames(welcome: Option<seq<Byte>>, large: Option<LargeFrame>,
                           frames: seq<Frame>, keys: seq<seq<Byte>>, chunks: seq<seq<Byte>>)
    requires AllSendable(frames) && AllSendable(Opening(welcome, large)) && Keys(keys, |frames|)
    requires Flatten(chunks) == ClientBytes(frames, keys)
    ensures var end := FeedAll(Open(None, welcome, large), chunks);
      && Frames(Flatten(end.written)) == Opening(welcome, large) + Replies(frames)
      && Leftover(Flatten(end.written)) == []
      && end.buffer == []
  {
    ClientStreamParses(frames, keys);
    EchoStream(welcome, large, chunks);
  }

  /** A close initiated by the server is the only frame it ever writes, whatever the client sends. */
  lemma ServerCloseIsFinal(close: ServerClose, welcome: Option<seq<Byte>>, large: Option<LargeFrame>, chunks: seq<seq<Byte>>)
    requires |close.reason| < BUFFER_LIMIT - 2
    ensures var end := FeedAll(Open(Some(close), welcome, large), chunks);
      && Frames(Flatten(end.written)) == [Frame(0x8, [close.code / 256 % 256, close.code % 256] + close.reason)]
      && end.closed && end.ended
  {
    assert WriteUInt(close.code, 2) == [close.code / 256 % 256, close.code % 256];
    var start, frame := Open(Some(close), welcome, large), Frame(CLOSE, ClosePayload(close));
    var received := start.(buffer := start.buffer + Flatten(chunks));
    ChunkingIndependence(start, chunks);
    ClosedHandlesNothing(received, Frames(received.buffer));
    assert Settle(received).written == start.written;
    EncodeOne(frame);
    StreamRoundTrip([frame]);
  }

  /** Only the last frame may be a close frame. */
  predicate CloseOnlyLast(frames: seq<Frame>) {
    forall i :: 0 <= i < |frames| - 1 ==> frames[i].opcode != CLOSE
  }

  predicate EndsInClose(frames: seq<Frame>) {
    frames != [] && frames[|frames| - 1].opcode == CLOSE
  }

  /** Only the last reply can be a close frame, and there is one exactly if the endpoint ended the socket. */
  lemma {:induction false} CloseReplyIsLast(s: Session, frames: seq<Frame>)
    requires !s.closed && !s.ended
    ensures var replies := Replies(frames); var end := HandleAll(s, frames);
      && CloseOnlyLast(replies) && end.closed == end.ended && (end.ended <==> EndsInClose(replies))
    decreases |frames|
  {
    if frames != [] {
      var next := Handle(s, frames[0]);
      if next.closed {
        ClosedHandlesNothing(next, frames[1..]);
      } else {
        CloseReplyIsLast(next, frames[1..]);
      }
    }
  }

  lemma CloseBehindOthers(others: seq<Frame>, frames: seq<Frame>)
    requires forall i :: 0 <= i < |others| ==> others[i].opcode != CLOSE
    ensures CloseOnlyLast(frames) ==> CloseOnlyLast(others + frames)
    ensures EndsInClose(others + frames) <==> EndsInClose(frames)
  {
  }

  lemma AnsweredClose(welcome: Option<seq<Byte>>, large: Option<LargeFrame>, chunks: seq<seq<Byte>>)
    ensures var end := FeedAll(Open(None, welcome, large), chunks); var replies := Replies(Frames(Flatten(chunks)));
      CloseOnlyLast(replies) && (EndsInClose(replies) <==> end.ended)
  {
    var start, bytes := Open(None, welcome, large), Flatten(chunks);
    ChunkingIndependence(start, chunks);
    assert start.buffer + bytes == bytes;
    CloseReplyIsLast(start.(buffer := bytes), Frames(bytes));
  }

  /** Of the answers to data alone, only the last is a close frame, and exactly if the socket was ended. */
  lemma AnsweredCloseIsLast(close: Option<ServerClose>, welcome: Option<seq<Byte>>, large: Option<LargeFrame>,
                            chunks: seq<seq<Byte>>)
    requires close.Some? ==> |close.value.reason| < BUFFER_LIMIT - 2
    requires AllSendable(Opening(welcome, large)) && |Flatten(chunks)| < BUFFER_LIMIT
    ensures var end := FeedAll(Open(close, welcome, large), chunks); var frames := Frames(Flatten(end.written));
      CloseOnlyLast(frames) && (EndsInClose(frames) <==> end.ended)
  {
    match close {
      case Some(event) => ServerCloseIsFinal(event, welcome, large, chunks);
      case None =>
        EchoConversation(welcome, large, chunks);
        AnsweredClose(welcome, large, chunks);
        CloseBehindOthers(Opening(welcome, large), Replies(Frames(Flatten(chunks))));
    }
  }

  /** A closed endpoint writes nothing more, whatever still arrives. */
  lemma {:induction false} ClosedStaysSilent(s: Session, chunks: seq<seq<Byte>>)
    requires s.closed
    ensures var end := FeedAll(s, chunks); end.closed && end.written == s.written && end.ended == s.ended
    decreases |chunks|
  {
    if chunks != [] {
      var received := s.(buffer := s.buffer + chunks[0]);
      ClosedHandlesNothing(received, Frames(received.buffer));
      ClosedStaysSilent(Feed(s, chunks[0]), chunks[1..]);
    }
  }

  // ----- Data and close events of the socket -----

  datatype SocketEvent = DataEvent(chunk: seq<Byte>) | PeerClosed

  function React(s: Session, event: SocketEvent): Session {
    match event
    case DataEvent(chunk) => Feed(s, chunk)
    case PeerClosed => s.(closed := true)
  }

  function ReactAll(s: Session, events: seq<SocketEvent>): Session
    decreases |events|
  {
    if events == [] then s else ReactAll(React(s, events[0]), events[1..])
  }

  /** The chunks that arrive before the peer closes. */
  function DataBeforeClose(events: seq<SocketEvent>): seq<seq<Byte>> {
    if events == [] || events[0].PeerClosed? then [] else [events[0].chunk] + DataBeforeClose(events[1..])
  }

  lemma {:induction false} ClosedStaysClosed(s: Session, events: seq<SocketEvent>)
    requires s.closed
    ensures var end := ReactAll(s, events); end.closed && end.written == s.written && end.ended == s.ended
    decreases |events|
  {
    if events != [] {
      if events[0].DataEvent? {
        ClosedStaysSilent(s, [events[0].chunk]);
        assert FeedAll(s, [events[0].chunk]) == FeedAll(Feed(s, events[0].chunk), []);
      }
      ClosedStaysClosed(React(s, events[0]), events[1..]);
    }
  }

  /** What is written, and whether the socket is ended, depends only on the data before the peer's close. */
  lemma {:induction false} OnlyDataBeforeCloseCounts(s: Session, events: seq<SocketEvent>)
    ensures var end, fed := ReactAll(s, events), FeedAll(s, DataBeforeClose(events));
      end.written == fed.written && end.ended == fed.ended
    decreases |events|
  {
    if events != [] {
      if events[0].PeerClosed? {
        ClosedStaysClosed(s.(closed := true), events[1..]);
      } else {
        var chunks := DataBeforeClose(events);
        assert chunks[0] == events[0].chunk && chunks[1..] == DataBeforeClose(events[1..]);
        OnlyDataBeforeCloseCounts(Feed(s, events[0].chunk), events[1..]);
      }
    }
  }

  /**
   Of everything the endpoint ever writes, over every sequence of data and close events of the socket, and
   whether or not the server closes at once, at most one frame is a close frame; it is the last one, and
   it is there exactly if the endpoint ended the socket.
   */
  lemma WrittenCloseIsLast(close: Option<ServerClose>, welcome: Option<seq<Byte>>, large: Option<LargeFrame>,
                           events: seq<SocketEvent>)
    requires close.Some? ==> |close.value.reason| < BUFFER_LIMIT - 2
    requires AllSendable(Opening(welcome, large)) && |Flatten(DataBeforeClose(events))| < BUFFER_LIMIT
    ensures var end := ReactAll(Open(close, welcome, large), events); var frames := Frames(Flatten(end.written));
      CloseOnlyLast(frames) && (EndsInClose(frames) <==> end.ended)
  {
    OnlyDataBeforeCloseCounts(Open(close, welcome, large), events);
    AnsweredCloseIsLast(close, welcome, large, DataBeforeClose(events));
  }

  // ----- The endpoint as the server keeps it -----

  /** `writeUInt16BE` and `writeBigUInt64BE`: the bytes of `value` at `offset`, most significant first. */
  method WriteBigEndian(frame: array<Byte>, value: nat, offset: nat, width: nat)
    requires offset + width <= frame.Length
    modifies frame
    ensures frame[..] == old(frame[..offset]) + WriteUInt(value, width) + old(frame[offset + width..])
  {
    var rest: nat, i: nat := value, width;
    while i > 0
      invariant i <= width
      invariant WriteUInt(value, width) == WriteUInt(rest, i) + frame[offset + i..offset + width]
      invariant frame[..offset] == old(frame[..offset])
      invariant frame[offset + width..] == old(frame[offset + width..])
    {
      ghost var tail := frame[offset + i..offset + width];
      i := i - 1;
      frame[offset + i] := rest % 256;
      assert frame[offset + i..offset + width] == [rest % 256] + tail;
      rest := rest / 256;
    }
    assert frame[..] == frame[..offset] + frame[offset..offset + width] + frame[offset + width..];
  }

  class Endpoint {
    var buffer: seq<Byte>
    var closed: bool
    var written: seq<seq<Byte>>
    var ended: bool

    function View(): Session
      reads this
    {
      Session(buffer, closed, written, ended)
    }

    constructor (close: Option<ServerClose>, welcome: Option<seq<Byte>>, large: Option<LargeFrame>)
      requires close.Some? ==> |close.value.reason| < BUFFER_LIMIT - 2
      requires AllSendable(Opening(welcome, large))
      ensures View() == Open(close, welcome, large)
    {
      buffer, closed, written, ended := [], false, [], false;
      new;
      match close {
        case Some(event) =>
          var payload := new Byte[2 + |event.reason|](_ => 0);
          WriteBigEndian(payload, event.code, 0, 2);
          Copy(event.reason, payload, 2);
          assert payload[..] == ClosePayload(event);
          SendFrame(CLOSE, payload[..]);
          closed := true;
          ended := true;
        case None =>
          ghost var opening := Opening(welcome, large);
          if welcome.Some? {
            assert opening[0] == Frame(TEXT, welcome.value);
            SendFrame(TEXT, welcome.value);
          }
          assert written == EncodeAll(Opening(welcome, None)) by {
            if welcome.Some? {
              EncodeOne(Frame(TEXT, welcome.value));
            }
          }
          if large.Some? {
            var frame := LargeToFrame(large.value);
            assert opening[|opening| - 1] == frame;
            SendFrame(frame.opcode, frame.data);
            EncodeOne(frame);
            EncodeAllConcat(Opening(welcome, None), [frame]);
            assert opening == Opening(welcome, None) + [frame];
          }
      }
    }

    /** `data.copy(frame, offset)` for a target that is long enough. */
    static method Copy(data: seq<Byte>, frame: array<Byte>, offset: nat)
      requires offset + |data| == frame.Length
      modifies frame
      ensures frame[..] == old(frame[..offset]) + data
    {
      for i := 0 to |data|
        invariant frame[..offset] == old(frame[..offset])
        invariant frame[offset..offset + i] == data[..i]
      {
        frame[offset + i] := data[i];
        assert frame[offset..offset + i + 1] == frame[offset..offset + i] + [data[i]];
      }
      assert frame[..] == frame[..offset] + frame[offset..];
    }

    /** Fills one buffer with header, length and payload and writes it to the socket. */
    method SendFrame(opcode: nat, data: seq<Byte>)
      requires |data| < BUFFER_LIMIT
      modifies this`written
      ensures written == old(written) + [EncodeFrame(opcode, data)]
    {
      var payloadLength := |data|;
      var headerLength := 2;
      if payloadLength >= 126 && payloadLength < 65536 {
        headerLength := headerLength + 2;
      } else if payloadLength >= 65536 {
        headerLength := headerLength + 8;
      }
      var frame := new Byte[headerLength + payloadLength](_ => 0);
      frame[0] := 128 + opcode % 16;
      var offset := 2;
      if payloadLength < 126 {
        frame[1] := payloadLength;
        assert frame[..offset] == [frame[0]] + LengthHeader(payloadLength);
      } else if payloadLength < 65536 {
        frame[1] := 126;
        WriteBigEndian(frame, payloadLength, offset, 2);
        offset := offset + 2;
        assert frame[..offset] == [frame[0]] + LengthHeader(payloadLength);
      } else {
        frame[1] := 127;
        WriteBigEndian(frame, payloadLength, offset, 8);
        offset := offset + 8;
        assert frame[..offset] == [frame[0]] + LengthHeader(payloadLength);
      }
      Copy(data, frame, offset);
      written := written + [frame[..]];
    }

    method Unmask(payload: seq<Byte>, maskingKey: seq<Byte>) returns (data: seq<Byte>)
      requires |maskingKey| == 4
      ensures data == Unmasked(payload, maskingKey)
      ensures |data| == |payload|
      ensures forall i, k :: 0 <= i < |payload| && 0 <= k < 8 ==>
        Bit(data[i], k) == (Bit(payload[i], k) + Bit(maskingKey[i % 4], k)) % 2
    {
      var result := new Byte[|payload|](_ => 0);
      for i := 0 to |payload|
        invariant forall j :: 0 <= j < i ==> result[j] == Xor(payload[j], maskingKey[j % 4])
      {
        result[i] := Xor(payload[i], maskingKey[i % 4]);
      }
      data := result[..];
      forall i, k | 0 <= i < |payload| && 0 <= k < 8
        ensures Bit(data[i], k) == (Bit(payload[i], k) + Bit(maskingKey[i % 4], k)) % 2
      {
        UnmaskedBits(payload, maskingKey, i, k);
      }
    }

    method HandleFrame(opcode: nat, data: seq<Byte>)
      requires |data| < BUFFER_LIMIT
      modifies this`closed, this`written, this`ended
      ensures View() == Handle(old(View()), Frame(opcode, data))
    {
      if closed {
        return;
      }
      match opcode {
        case 0x1 => SendFrame(0x1, data);
        case 0x2 => SendFrame(0x2, data);
        case 0x8 =>
          SendFrame(0x8, data);
          closed := true;
          ended := true;
        case 0x9 => SendFrame(0xa, data);
        case 0xa =>
        case _ =>
          SendFrame(0x8, []);
          closed := true;
          ended := true;
      }
    }

    /** Parses and handles frames until the buffer holds no complete one. */
    method ParseFrames()
      requires |buffer| < BUFFER_LIMIT
      modifies this
      ensures View() == Settle(old(View()))
    {
      while |buffer| >= 2
        invariant |buffer| < BUFFER_LIMIT
        invariant Settle(View()) == Settle(old(View()))
        decreases |buffer|
      {
        var firstByte, secondByte := buffer[0], buffer[1];
        var opcode := firstByte % 16;
        var isMasked := secondByte >= 128;
        var offset := 2;
        var payloadLength: nat := secondByte % 128;
        if payloadLength == 126 {
          if |buffer| < offset + 2 { return; }
          payloadLength := ReadUInt(buffer[offset..offset + 2]);
          offset := offset + 2;
        } else if payloadLength == 127 {
          if |buffer| < offset + 8 { return; }
          payloadLength := JsNumber(ReadUInt(buffer[offset..offset + 8]));
          offset := offset + 8;
        }
        assert offset == 2 + LengthBytes(secondByte) && payloadLength == PayloadLength(buffer);
        var maskEnd := offset + if isMasked then 4 else 0;
        if |buffer| < maskEnd { return; }
        var maskingKey := buffer[offset..maskEnd];
        offset := maskEnd;
        var frameEnd := offset + payloadLength;
        if |buffer| < frameEnd { return; }
        ghost var before := View();
        var payload := buffer[offset..frameEnd];
        buffer := buffer[frameEnd..];
        var data := payload;
        if isMasked {
          data := Unmask(payload, maskingKey);
        }
        ParseCompletes(before.buffer, data);
        HandleFrame(opcode, data);
        HandleStep(before, Frame(opcode, data), frameEnd);
      }
    }

    method OnData(chunk: seq<Byte>)
      requires |buffer| + |chunk| < BUFFER_LIMIT
      modifies this
      ensures View() == Feed(old(View()), chunk)
    {
      buffer := buffer + chunk;
      ParseFrames();
    }

    /** After the peer has closed the socket, nothing that still arrives is answered. */
    method OnClose()
      modifies this`closed
      ensures View() == React(old(View()), PeerClosed)
      ensures forall events :: ReactAll(View(), events).written == old(written)
    {
      closed := true;
      forall events ensures ReactAll(View(), events).written == written {
        ClosedStaysClosed(View(), events);
      }
    }
  }

  /** The slices that the loop of `ParseFrames` takes are the parsed frame. */
  lemma ParseCompletes(buffer: seq<Byte>, data: seq<Byte>)
    requires |buffer| >= 2 && |buffer| >= MaskEnd(buffer[1])
    requires |buffer| >= MaskEnd(buffer[1]) + PayloadLength(buffer)
    requires var maskEnd := MaskEnd(buffer[1]); var payload := buffer[maskEnd..maskEnd + PayloadLength(buffer)];
      data == if IsMasked(buffer[1]) then Unmasked(payload, buffer[maskEnd - 4..maskEnd]) else payload
    ensures ParseFrame(buffer)
         == Complete(Frame(buffer[0] % 16, data), MaskEnd(buffer[1]) + PayloadLength(buffer))
  {
  }

  /** Handling the first frame and then the rest is handling all of them. */
  lemma HandleStep(s: Session, frame: Frame, n: nat)
    requires ParseFrame(s.buffer) == Complete(frame, n)
    ensures Settle(Handle(s.(buffer := s.buffer[n..]), frame)) == Settle(s)
  {
    var rest := s.buffer[n..];
    HandleKeepsBuffer(s, frame, rest);
    HandleAllKeepsBuffer(Handle(s, frame), Frames(rest), rest);
    assert Frames(s.buffer)[1..] == Frames(rest);
  }
}
