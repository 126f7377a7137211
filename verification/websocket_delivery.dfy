/**
 What a user's callbacks observe over a whole run of the WebSocket pipeline: which callbacks run, in
 which order, and what an aborted receiver can change. Everything here holds of every schedule.
 */
module WebSocketDelivery {
  import opened Sequences
  import opened Wrappers
  import opened WebSocketPipeline

  // ----- The callbacks already determined by a state -----

  /** The callbacks the consumer makes of a stream of events. */
  function ConsumerView(cfg: Config, events: seq<WsEvent>, emitted: bool): seq<Callback> {
    if events == [] then
      if emitted then [] else CloseCallback(cfg, AbnormalCloseEvent())
    else
      match events[0]
      case MessageEvent(msg) => [OnMessage(msg)] + ConsumerView(cfg, events[1..], emitted)
      case ErrorEvent(error) =>
        (if cfg.hasOnError then [OnError(error)] else []) + ConsumerView(cfg, events[1..], emitted)
      case ClosedEvent(event) =>
        if emitted then ConsumerView(cfg, events[1..], true)
        else CloseCallback(cfg, event) + ConsumerView(cfg, events[1..], true)
  }

  /** The events the receiver makes of the rest of the socket. */
  function ReaderView(unread: seq<SocketItem>): seq<WsEvent> {
    if unread == [] then [ClosedEvent(AbnormalCloseEvent())]
    else
      match unread[0]
      case Data(msg) => [MessageEvent(msg)] + ReaderView(unread[1..])
      case CloseFrame(frame) => [ClosedEvent(CloseEventOf(frame))]
      case Control => ReaderView(unread[1..])
      case Failure(error) => [ErrorEvent(error), ClosedEvent(AbnormalCloseEvent())]
  }

  function ReceiverView(receiver: Receiver, unread: seq<SocketItem>): seq<WsEvent> {
    match receiver
    case Reading => ReaderView(unread)
    case SendingMessage(msg) => [MessageEvent(msg)] + ReaderView(unread)
    case SendingError(error) => [ErrorEvent(error), ClosedEvent(AbnormalCloseEvent())]
    case SendingClose(event) => [ClosedEvent(event)]
    case SendingFallback => [ClosedEvent(AbnormalCloseEvent())]
    case Ended => []
    case Aborted(_) => []
  }

  function HeldEvents(consumer: Consumer): seq<WsEvent> {
    match consumer
    case AcquiringPermit(msg) => [MessageEvent(msg)]
    case HoldingPermit(msg) => [MessageEvent(msg)]
    case _ => []
  }

  function Outstanding(s: State): seq<WsEvent> {
    HeldEvents(s.consumer) + s.channel + ReceiverView(s.receiver, s.unread)
  }

  function StillOwed(cfg: Config, s: State): seq<Callback> {
    if s.consumer.Unregistering? || s.consumer.Finished? then []
    else ConsumerView(cfg, Outstanding(s), s.closeEmitted)
  }

  /** The log of the run, as far as it is determined unless the receiver is aborted. */
  function Plan(cfg: Config, s: State): seq<Callback> {
    s.ran + s.queue + StillOwed(cfg, s)
  }

  // ----- The invariant -----

  function Held(consumer: Consumer): nat {
    if consumer.HoldingPermit? then 1 else 0
  }

  function RunningMessages(running: Option<Callback>): nat {
    if running.Some? && running.value.OnMessage? then 1 else 0
  }

  predicate InLoop(consumer: Consumer) {
    consumer.Receiving? || consumer.AcquiringPermit? || consumer.HoldingPermit?
  }

  predicate NoClose(events: seq<WsEvent>) {
    forall i :: 0 <= i < |events| ==> !events[i].ClosedEvent?
  }

  predicate PermitsConserved(s: State) {
    s.permits + Held(s.consumer) + |MessagesCalled(s.queue)| + RunningMessages(s.running)
      == WS_EVENT_BUFFER
  }

  predicate Inv(cfg: Config, s: State) {
    && s.read + s.unread == cfg.script
    && |s.channel| <= WS_EVENT_BUFFER
    && PermitsConserved(s)
    && (Active(s.receiver) ==> !s.closeSent && !s.closeEmitted && NoClose(s.channel))
    && (!InLoop(s.consumer) ==> !Active(s.receiver) && s.channel == [])
    && (s.consumer.Finished? ==> !s.registered)
  }

  lemma {:induction false} MessagesCalledConcat(a: seq<Callback>, b: seq<Callback>)
    ensures MessagesCalled(a + b) == MessagesCalled(a) + MessagesCalled(b)
  {
    if a == [] {
      assert a + b == b;
    } else {
      assert (a + b)[1..] == a[1..] + b;
      MessagesCalledConcat(a[1..], b);
      var head := if a[0].OnMessage? then [a[0].msg] else [];
      Associate(head, MessagesCalled(a[1..]), MessagesCalled(b));
    }
  }

  lemma PollKeeps(cfg: Config, s: State)
    requires Inv(cfg, s) && Poll(s).Some?
    ensures Inv(cfg, Poll(s).value) && Plan(cfg, Poll(s).value) == Plan(cfg, s)
  {
    PollKeepsInv(cfg, s);
    PollKeepsView(s);
  }

  lemma PollKeepsInv(cfg: Config, s: State)
    requires Inv(cfg, s) && Poll(s).Some?
    ensures Inv(cfg, Poll(s).value)
  {
    if s.unread != [] {
      assert s.read + s.unread == s.read + [s.unread[0]] + s.unread[1..];
    }
  }

  /** Polling changes nothing but the receiver, the item it takes, and not what the receiver will send. */
  lemma PollKeepsView(s: State)
    requires Poll(s).Some? && (Active(s.receiver) ==> !s.closeSent)
    ensures var next := Poll(s).value;
      && ReceiverView(next.receiver, next.unread) == ReceiverView(s.receiver, s.unread)
      && next == s.(unread := next.unread, read := next.read, receiver := next.receiver)
  {
  }

  lemma SendKeeps(cfg: Config, s: State)
    requires Inv(cfg, s) && Send(s).Some?
    ensures Inv(cfg, Send(s).value) && Plan(cfg, Send(s).value) == Plan(cfg, s)
  {
    SendKeepsInv(cfg, s);
    SendMovesEvent(s);
    var next := Send(s).value;
    assert Outstanding(next) == Outstanding(s) by {
      var sent := next.channel[|s.channel|..];
      assert HeldEvents(s.consumer) + next.channel == HeldEvents(s.consumer) + s.channel + sent;
      Associate(HeldEvents(s.consumer) + s.channel, sent, ReceiverView(next.receiver, next.unread));
    }
  }

  lemma SendKeepsInv(cfg: Config, s: State)
    requires Inv(cfg, s) && Send(s).Some?
    ensures Inv(cfg, Send(s).value)
  {
    SendMovesEvent(s);
    SendKeepsCloseLast(s);
  }

  lemma SendKeepsCloseLast(s: State)
    requires Send(s).Some? && !ChannelClosed(s) && !s.closeSent && NoClose(s.channel)
    ensures var next := Send(s).value;
      && |next.channel| <= WS_EVENT_BUFFER
      && (Active(next.receiver) ==> !next.closeSent && NoClose(next.channel))
  {
  }

  /** An open channel takes over the first of the events that the receiver will send. */
  lemma SendMovesEvent(s: State)
    requires Send(s).Some? && !ChannelClosed(s) && !s.closeSent
    ensures var next := Send(s).value;
      && s.channel <= next.channel
      && next.channel[|s.channel|..] + ReceiverView(next.receiver, next.unread)
           == ReceiverView(s.receiver, s.unread)
      && next == s.(channel := next.channel, receiver := next.receiver, closeSent := next.closeSent)
  {
    var view := ReceiverView(s.receiver, s.unread);
    assert view == [view[0]] + view[1..];
  }

  lemma AbortKeepsInv(cfg: Config, s: State)
    requires Inv(cfg, s) && Abort(s).Some?
    ensures Inv(cfg, Abort(s).value)
  {
  }

  /** The callbacks the consumer makes of one event. */
  function EventCallbacks(cfg: Config, event: WsEvent, emitted: bool): seq<Callback> {
    match event
    case MessageEvent(msg) => [OnMessage(msg)]
    case ErrorEvent(error) => if cfg.hasOnError then [OnError(error)] else []
    case ClosedEvent(event) => if emitted then [] else CloseCallback(cfg, event)
  }

  lemma ConsumerViewCons(cfg: Config, event: WsEvent, rest: seq<WsEvent>, emitted: bool)
    ensures ConsumerView(cfg, [event] + rest, emitted)
         == EventCallbacks(cfg, event, emitted) + ConsumerView(cfg, rest, emitted || event.ClosedEvent?)
  {
  }

  lemma ReceiveKeepsInv(cfg: Config, s: State)
    requires Inv(cfg, s) && Receive(cfg, s).Some?
    ensures Inv(cfg, Receive(cfg, s).value)
  {
    if s.channel != [] && !s.channel[0].MessageEvent? {
      var added := EventCallbacks(cfg, s.channel[0], s.closeEmitted);
      assert Receive(cfg, s).value.queue == s.queue + added;
      MessagesCalledConcat(s.queue, added);
      assert MessagesCalled(added) == [];
    }
  }

  lemma ReceiveKeepsPlan(cfg: Config, s: State)
    requires Inv(cfg, s) && Receive(cfg, s).Some?
    ensures Plan(cfg, Receive(cfg, s).value) == Plan(cfg, s)
  {
    var next := Receive(cfg, s).value;
    if s.channel != [] {
      var event, rest := s.channel[0], s.channel[1..] + ReceiverView(s.receiver, s.unread);
      assert Outstanding(s) == [event] + rest;
      if event.MessageEvent? {
        ReceiveMessageEffect(cfg, s);
        assert Outstanding(next) == [event] + rest;
      } else {
        ReceiveEventKeepsPlan(cfg, s, event, rest);
      }
    }
  }

  /** A message leaves the channel and waits for a permit. */
  lemma ReceiveMessageEffect(cfg: Config, s: State)
    requires s.consumer.Receiving? && s.channel != [] && s.channel[0].MessageEvent?
    ensures Receive(cfg, s)
         == Some(s.(channel := s.channel[1..], consumer := AcquiringPermit(s.channel[0].msg)))
  {
  }

  lemma ReceiveEventKeepsPlan(cfg: Config, s: State, event: WsEvent, rest: seq<WsEvent>)
    requires s.consumer.Receiving? && s.channel != [] && s.channel[0] == event && !event.MessageEvent?
    requires Outstanding(s) == [event] + rest && rest == s.channel[1..] + ReceiverView(s.receiver, s.unread)
    ensures Receive(cfg, s).Some? && Plan(cfg, Receive(cfg, s).value) == Plan(cfg, s)
  {
    var next := Receive(cfg, s).value;
    ConsumerViewCons(cfg, event, rest, s.closeEmitted);
    ReceiveEventEffect(cfg, s);
    assert Outstanding(next) == rest;
    Associate(s.ran + s.queue, EventCallbacks(cfg, event, s.closeEmitted),
              ConsumerView(cfg, rest, next.closeEmitted));
    Associate(s.ran, s.queue, EventCallbacks(cfg, event, s.closeEmitted));
  }

  /** An event that is no message leaves the channel and becomes its callbacks. */
  lemma ReceiveEventEffect(cfg: Config, s: State)
    requires s.consumer.Receiving? && s.channel != [] && !s.channel[0].MessageEvent?
    ensures Receive(cfg, s) == Some(s.(
              channel := s.channel[1..],
              closeEmitted := s.closeEmitted || s.channel[0].ClosedEvent?,
              queue := s.queue + EventCallbacks(cfg, s.channel[0], s.closeEmitted)))
  {
    assert s.queue + [] == s.queue;
  }

  lemma EnqueueKeeps(cfg: Config, s: State)
    requires Inv(cfg, s) && Enqueue(s).Some?
    ensures Inv(cfg, Enqueue(s).value) && Plan(cfg, Enqueue(s).value) == Plan(cfg, s)
  {
    EnqueueKeepsInv(cfg, s);
    var next, msg := Enqueue(s).value, s.consumer.msg;
    assert HeldEvents(s.consumer) + s.channel == [MessageEvent(msg)] + s.channel;
    Associate([MessageEvent(msg)], s.channel, ReceiverView(s.receiver, s.unread));
    assert Outstanding(next) == s.channel + ReceiverView(s.receiver, s.unread);
    ConsumerViewCons(cfg, MessageEvent(msg), Outstanding(next), s.closeEmitted);
    Associate(s.ran + s.queue, [OnMessage(msg)], StillOwed(cfg, next));
    Associate(s.ran, s.queue, [OnMessage(msg)]);
  }

  lemma EnqueueKeepsInv(cfg: Config, s: State)
    requires Inv(cfg, s) && Enqueue(s).Some?
    ensures Inv(cfg, Enqueue(s).value)
  {
    MessagesCalledConcat(s.queue, [OnMessage(s.consumer.msg)]);
  }

  lemma FallbackKeeps(cfg: Config, s: State)
    requires Inv(cfg, s) && Fallback(cfg, s).Some?
    ensures Inv(cfg, Fallback(cfg, s).value) && Plan(cfg, Fallback(cfg, s).value) == Plan(cfg, s)
  {
    assert Outstanding(s) == [];
    MessagesCalledConcat(s.queue, CloseCallback(cfg, AbnormalCloseEvent()));
  }

  lemma JsRunKeeps(cfg: Config, s: State)
    requires Inv(cfg, s) && RunCallback(s).Some?
    ensures Inv(cfg, RunCallback(s).value) && Plan(cfg, RunCallback(s).value) == Plan(cfg, s)
  {
    var next := RunCallback(s).value;
    assert s.queue == [s.queue[0]] + s.queue[1..];
    Associate(s.ran, [s.queue[0]], s.queue[1..]);
    assert next.ran + next.queue == s.ran + s.queue;
    assert Outstanding(next) == Outstanding(s) && StillOwed(cfg, next) == StillOwed(cfg, s);
  }

  lemma OtherStepsKeep(cfg: Config, s: State, a: Action)
    requires a in {ConsumerAcquire, ConsumerUnregister, JsReturn, UserClose}
    requires Inv(cfg, s) && Step(cfg, s, a).Some?
    ensures Inv(cfg, Step(cfg, s, a).value) && Plan(cfg, Step(cfg, s, a).value) == Plan(cfg, s)
  {
    var next := Step(cfg, s, a).value;
    assert Outstanding(next) == Outstanding(s);
  }

  /** Every step keeps the invariant; every step but an abort keeps the log the run is heading for. */
  lemma StepKeeps(cfg: Config, s: State, a: Action)
    requires Inv(cfg, s) && Step(cfg, s, a).Some?
    ensures Inv(cfg, Step(cfg, s, a).value)
    ensures a != ReceiverAbort ==> Plan(cfg, Step(cfg, s, a).value) == Plan(cfg, s)
  {
    match a {
      case ReceiverPoll => PollKeeps(cfg, s);
      case ReceiverSend => SendKeeps(cfg, s);
      case ReceiverAbort => AbortKeepsInv(cfg, s);
      case ConsumerReceive => ReceiveKeepsInv(cfg, s); ReceiveKeepsPlan(cfg, s);
      case ConsumerEnqueue => EnqueueKeeps(cfg, s);
      case ConsumerFallback => FallbackKeeps(cfg, s);
      case JsRun => JsRunKeeps(cfg, s);
      case _ => OtherStepsKeep(cfg, s, a);
    }
  }

  // ----- From steps to runs -----

  lemma {:induction false} ReaderViewIsOwed(cfg: Config, script: seq<SocketItem>)
    ensures ConsumerView(cfg, ReaderView(script), false)
         == BeforeClose(cfg, script) + CloseCallback(cfg, OwedClose(script))
  {
    if script == [] {
    } else {
      match script[0] {
        case Data(msg) =>
          ReaderViewIsOwed(cfg, script[1..]);
          ConsumerViewCons(cfg, MessageEvent(msg), ReaderView(script[1..]), false);
        case CloseFrame(_) =>
        case Control =>
          ReaderViewIsOwed(cfg, script[1..]);
        case Failure(error) =>
          ConsumerViewCons(cfg, ErrorEvent(error), [ClosedEvent(AbnormalCloseEvent())], false);
      }
    }
  }

  lemma InitialPlan(cfg: Config)
    ensures Inv(cfg, Init(cfg)) && Plan(cfg, Init(cfg)) == CleanLog(cfg)
  {
    ReaderViewIsOwed(cfg, cfg.script);
    assert Outstanding(Init(cfg)) == ReaderView(cfg.script);
  }

  function EventsCallbacks(cfg: Config, events: seq<WsEvent>): seq<Callback> {
    if events == [] then []
    else EventCallbacks(cfg, events[0], true) + EventsCallbacks(cfg, events[1..])
  }

  lemma {:induction false} ConsumerViewPrefix(cfg: Config, a: seq<WsEvent>, b: seq<WsEvent>, emitted: bool)
    requires NoClose(a)
    ensures ConsumerView(cfg, a + b, emitted) == EventsCallbacks(cfg, a) + ConsumerView(cfg, b, emitted)
  {
    if a == [] {
      assert a + b == b;
    } else {
      assert a + b == [a[0]] + (a[1..] + b);
      ConsumerViewCons(cfg, a[0], a[1..] + b, emitted);
      ConsumerViewPrefix(cfg, a[1..], b, emitted);
    }
  }

  lemma CloseStillOwed(cfg: Config, events: seq<WsEvent>)
    ensures |ConsumerView(cfg, events, false)| >= |CloseCallback(cfg, AbnormalCloseEvent())|
  {
  }

  /** The callbacks of events that have left the receiver, before any close. */
  function Taken(cfg: Config, s: State): seq<Callback> {
    s.ran + s.queue + EventsCallbacks(cfg, HeldEvents(s.consumer) + s.channel)
  }

  /** The callbacks of events that the receiver still has to send. */
  function ToCome(cfg: Config, s: State): seq<Callback> {
    ConsumerView(cfg, ReceiverView(s.receiver, s.unread), false)
  }

  lemma PlanSplits(cfg: Config, s: State)
    requires Inv(cfg, s) && Active(s.receiver)
    ensures Plan(cfg, s) == Taken(cfg, s) + ToCome(cfg, s)
  {
    var events, rest := HeldEvents(s.consumer) + s.channel, ReceiverView(s.receiver, s.unread);
    ConsumerViewPrefix(cfg, events, rest, false);
    Associate(s.ran + s.queue, EventsCallbacks(cfg, events), ConsumerView(cfg, rest, false));
  }

  /** An abort replaces the rest of the plan by one abnormal close callback. */
  lemma AbortCutsPlan(cfg: Config, s: State)
    requires Inv(cfg, s) && Abort(s).Some? && Plan(cfg, s) == CleanLog(cfg)
    ensures |Taken(cfg, s)| <= |BeforeClose(cfg, cfg.script)|
    ensures Plan(cfg, Abort(s).value) == CutLog(cfg, |Taken(cfg, s)|)
  {
    var events := HeldEvents(s.consumer) + s.channel;
    assert Outstanding(Abort(s).value) == events + [];
    ConsumerViewPrefix(cfg, events, [], false);
    PlanSplits(cfg, s);
    CloseStillOwed(cfg, ReceiverView(s.receiver, s.unread));
    PrefixOfConcat(Taken(cfg, s), ToCome(cfg, s),
                   BeforeClose(cfg, cfg.script), CloseCallback(cfg, OwedClose(cfg.script)));
  }

  lemma PrefixOfConcat<T>(a: seq<T>, b: seq<T>, c: seq<T>, d: seq<T>)
    requires a + b == c + d && |b| >= |d|
    ensures |a| <= |c| && a == c[..|a|]
  {
    assert a == (a + b)[..|a|];
    assert c[..|a|] == (c + d)[..|a|];
  }

  /** Where a run can be heading: the clean log, or a cut of it once the receiver was aborted. */
  ghost predicate Heading(cfg: Config, s: State) {
    if s.receiver.Aborted? then
      exists k: nat | k <= |BeforeClose(cfg, cfg.script)| :: Plan(cfg, s) == CutLog(cfg, k)
    else Plan(cfg, s) == CleanLog(cfg)
  }

  lemma StepKeepsHeading(cfg: Config, s: State, a: Action)
    requires Inv(cfg, s) && Heading(cfg, s) && Step(cfg, s, a).Some?
    ensures Inv(cfg, Step(cfg, s, a).value) && Heading(cfg, Step(cfg, s, a).value)
    ensures Step(cfg, s, a).value.receiver.Aborted? <==> s.receiver.Aborted? || a == ReceiverAbort
  {
    StepKeeps(cfg, s, a);
    AbortIsLasting(cfg, s, a);
    if a == ReceiverAbort {
      AbortCutsPlan(cfg, s);
    }
  }

  lemma AbortIsLasting(cfg: Config, s: State, a: Action)
    requires Step(cfg, s, a).Some?
    ensures Step(cfg, s, a).value.receiver.Aborted? <==> s.receiver.Aborted? || a == ReceiverAbort
    ensures a == ReceiverAbort ==> !s.receiver.Aborted?
  {
  }

  lemma {:induction false} ExecKeepsHeading(cfg: Config, s: State, schedule: seq<Action>)
    requires Inv(cfg, s) && Heading(cfg, s) && Exec(cfg, s, schedule).Some?
    ensures Inv(cfg, Exec(cfg, s, schedule).value) && Heading(cfg, Exec(cfg, s, schedule).value)
    ensures Exec(cfg, s, schedule).value.receiver.Aborted?
       <==> s.receiver.Aborted? || ReceiverAbort in schedule
    decreases |schedule|
  {
    if schedule != [] {
      StepKeepsHeading(cfg, s, schedule[0]);
      ExecKeepsHeading(cfg, Step(cfg, s, schedule[0]).value, schedule[1..]);
    }
  }

  lemma FinalOwesNothing(cfg: Config, s: State)
    requires Final(s)
    ensures Plan(cfg, s) == s.ran
  {
  }

  /**
   Over every schedule without an abort, the callbacks enqueued so far are a prefix of the log that
   the socket script prescribes, and a finished run has run exactly that log.
   */
  lemma CleanRunDelivers(cfg: Config, schedule: seq<Action>)
    requires Exec(cfg, Init(cfg), schedule).Some? && ReceiverAbort !in schedule
    ensures var s := Exec(cfg, Init(cfg), schedule).value;
      s.ran + s.queue <= CleanLog(cfg) && (Final(s) ==> s.ran == CleanLog(cfg))
  {
    InitialPlan(cfg);
    ExecKeepsHeading(cfg, Init(cfg), schedule);
    var s := Exec(cfg, Init(cfg), schedule).value;
    if Final(s) {
      FinalOwesNothing(cfg, s);
    }
  }

  /** With an abort, the run heads for the clean log cut short and closed abnormally. */
  lemma AbortedRunDelivers(cfg: Config, schedule: seq<Action>) returns (k: nat)
    requires Exec(cfg, Init(cfg), schedule).Some? && ReceiverAbort in schedule
    ensures k <= |BeforeClose(cfg, cfg.script)|
    ensures var s := Exec(cfg, Init(cfg), schedule).value;
      s.ran + s.queue <= CutLog(cfg, k) && (Final(s) ==> s.ran == CutLog(cfg, k))
  {
    InitialPlan(cfg);
    ExecKeepsHeading(cfg, Init(cfg), schedule);
    var s := Exec(cfg, Init(cfg), schedule).value;
    k :| k <= |BeforeClose(cfg, cfg.script)| && Plan(cfg, s) == CutLog(cfg, k);
    if Final(s) {
      FinalOwesNothing(cfg, s);
    }
  }

  // ----- The shape of the logs -----

  predicate NoCloseCallback(log: seq<Callback>) {
    forall i :: 0 <= i < |log| ==> !log[i].OnClose?
  }

  /** A close callback is the last entry, so there is at most one and nothing follows it. */
  predicate CloseIsLast(log: seq<Callback>) {
    forall i :: 0 <= i < |log| - 1 ==> !log[i].OnClose?
  }

  predicate AtMostOneError(log: seq<Callback>) {
    forall i, j :: 0 <= i < j < |log| ==> !(log[i].OnError? && log[j].OnError?)
  }

  /** Callbacks before the close are messages, except that the last one may be an error. */
  predicate ErrorIsLast(log: seq<Callback>) {
    forall i :: 0 <= i < |log| ==> !log[i].OnClose? && (i < |log| - 1 ==> log[i].OnMessage?)
  }

  lemma {:induction false} BeforeCloseShape(cfg: Config, script: seq<SocketItem>)
    ensures ErrorIsLast(BeforeClose(cfg, script))
    ensures var log := BeforeClose(cfg, script);
      log != [] && log[|log| - 1].OnError? ==> OwedClose(script) == AbnormalCloseEvent()
  {
    if script == [] {
    } else if script[0].Data? || script[0].Control? {
      BeforeCloseShape(cfg, script[1..]);
    }
  }

  lemma LogShape(cfg: Config, before: seq<Callback>, event: CloseEvent, log: seq<Callback>)
    requires ErrorIsLast(before) && log <= before + CloseCallback(cfg, event)
    ensures CloseIsLast(log) && AtMostOneError(log)
    ensures log == before + CloseCallback(cfg, event) && cfg.hasOnClose ==>
      log != [] && log[|log| - 1] == OnClose(event)
    ensures !cfg.hasOnClose ==> NoCloseCallback(log)
  {
  }

  /**
   In every reachable state, aborted or not, at most one close callback has been enqueued and nothing
   was enqueued after it; at most one error callback has been enqueued; and a finished run has closed
   exactly when the user passed a close callback.
   */
  lemma CloseGuarantee(cfg: Config, schedule: seq<Action>)
    requires Exec(cfg, Init(cfg), schedule).Some?
    ensures var s := Exec(cfg, Init(cfg), schedule).value; var log := s.ran + s.queue;
      && CloseIsLast(log) && AtMostOneError(log)
      && (!cfg.hasOnClose ==> NoCloseCallback(log))
      && (Final(s) && cfg.hasOnClose ==> s.ran != [] && s.ran[|s.ran| - 1].OnClose?)
  {
    var s := Exec(cfg, Init(cfg), schedule).value;
    var before := BeforeClose(cfg, cfg.script);
    BeforeCloseShape(cfg, cfg.script);
    if ReceiverAbort in schedule {
      var k := AbortedRunDelivers(cfg, schedule);
      LogShape(cfg, before[..k], AbnormalCloseEvent(), s.ran + s.queue);
    } else {
      CleanRunDelivers(cfg, schedule);
      LogShape(cfg, before, OwedClose(cfg.script), s.ran + s.queue);
    }
    if Final(s) {
      assert s.ran + s.queue == s.ran;
    }
  }

  /** In every finished run, an error callback is followed directly by the abnormal close, and by nothing else. */
  lemma ErrorThenAbnormalClose(cfg: Config, schedule: seq<Action>, i: nat)
    requires Exec(cfg, Init(cfg), schedule).Some?
    requires var s := Exec(cfg, Init(cfg), schedule).value;
      Final(s) && i < |s.ran| && s.ran[i].OnError?
    ensures var s := Exec(cfg, Init(cfg), schedule).value;
      s.ran[i + 1..] == CloseCallback(cfg, CloseEvent(ABNORMAL_CLOSURE, ""))
  {
    var s, before := Exec(cfg, Init(cfg), schedule).value, BeforeClose(cfg, cfg.script);
    BeforeCloseShape(cfg, cfg.script);
    if ReceiverAbort in schedule {
      var k := AbortedRunDelivers(cfg, schedule);
      ErrorThenRest(before, before[..k], CloseCallback(cfg, AbnormalCloseEvent()), i);
    } else {
      CleanRunDelivers(cfg, schedule);
      ErrorThenRest(before, before, CloseCallback(cfg, OwedClose(cfg.script)), i);
    }
  }

  /** Only the last of the callbacks before the close can be an error, so a cut that shows it is no cut. */
  lemma ErrorThenRest(before: seq<Callback>, shown: seq<Callback>, close: seq<Callback>, i: nat)
    requires ErrorIsLast(before) && shown <= before && (forall j :: 0 <= j < |close| ==> close[j].OnClose?)
    requires i < |shown + close| && (shown + close)[i].OnError?
    ensures shown == before && i == |before| - 1 && (shown + close)[i + 1..] == close
  {
    assert i < |shown| && shown[i] == before[i];
  }

  /** The socket items before the first close frame, error or end of stream. */
  function BeforeEnd(script: seq<SocketItem>): seq<SocketItem> {
    if script == [] || script[0].CloseFrame? || script[0].Failure? then []
    else [script[0]] + BeforeEnd(script[1..])
  }

  /** The messages of the clean log are all messages before the end of the conversation, in order. */
  lemma CleanLogHasAllMessages(cfg: Config)
    ensures MessagesCalled(CleanLog(cfg)) == MessagesRead(BeforeEnd(cfg.script))
  {
    BeforeCloseMessages(cfg, cfg.script);
    var close := CloseCallback(cfg, OwedClose(cfg.script));
    assert MessagesCalled(close) == [];
    MessagesCalledConcat(BeforeClose(cfg, cfg.script), close);
  }

  lemma {:induction false} BeforeCloseMessages(cfg: Config, script: seq<SocketItem>)
    ensures MessagesCalled(BeforeClose(cfg, script)) == MessagesRead(BeforeEnd(script))
  {
    if script != [] && (script[0].Data? || script[0].Control?) {
      BeforeCloseMessages(cfg, script[1..]);
      if script[0].Data? {
        MessagesCalledConcat([OnMessage(script[0].msg)], BeforeClose(cfg, script[1..]));
      }
    }
  }

  // ----- The log of a finished run, spelled out -----

  function MessageCalls(items: seq<SocketItem>): seq<Callback> {
    if items == [] then []
    else (if items[0].Data? then [OnMessage(items[0].msg)] else []) + MessageCalls(items[1..])
  }

  /** What the item that ends the conversation causes: `n` is its position, or the length of the script. */
  predicate EndsAt(script: seq<SocketItem>, n: nat) {
    && n <= |script|
    && (forall i :: 0 <= i < n ==> script[i].Data? || script[i].Control?)
    && (n < |script| ==> script[n].CloseFrame? || script[n].Failure?)
  }

  lemma {:induction false} BeforeEndEnds(script: seq<SocketItem>)
    ensures var n := |BeforeEnd(script)|; EndsAt(script, n) && BeforeEnd(script) == script[..n]
  {
    if script != [] && !script[0].CloseFrame? && !script[0].Failure? {
      BeforeEndEnds(script[1..]);
      assert script == [script[0]] + script[1..];
    }
  }

  /** The close event owed: that of the close frame, 1005 for an empty one, 1006 without one. */
  lemma {:induction false} OwedCloseSpelled(script: seq<SocketItem>, n: nat)
    requires EndsAt(script, n)
    ensures n < |script| && script[n].CloseFrame? && script[n].frame.Some? ==>
      OwedClose(script) == script[n].frame.value
    ensures n < |script| && script[n].CloseFrame? && script[n].frame.None? ==>
      OwedClose(script) == CloseEvent(1005, "")
    ensures n == |script| || script[n].Failure? ==> OwedClose(script) == CloseEvent(1006, "")
  {
    if n > 0 {
      OwedCloseSpelled(script[1..], n - 1);
    }
  }

  lemma {:induction false} BeforeCloseSpelled(cfg: Config, script: seq<SocketItem>, n: nat)
    requires EndsAt(script, n)
    ensures BeforeClose(cfg, script)
         == MessageCalls(script[..n])
          + if cfg.hasOnError && n < |script| && script[n].Failure? then [OnError(script[n].error)] else []
  {
    if n > 0 {
      BeforeCloseSpelled(cfg, script[1..], n - 1);
      assert script[..n][1..] == script[1..][..n - 1];
    }
  }

  /**
   What the callbacks of a finished run are, in terms of the socket script alone. Without an abort: one
   for each message before the end, in order; the error if it ended with one; and the close, with the code
   and reason of the close frame, 1005 for a frame without a status, and 1006 if there was no frame. With
   an abort: a beginning of those before the close, and the close with 1006.
   */
  lemma FinishedRunSpelled(cfg: Config, schedule: seq<Action>, n: nat) returns (k: nat)
    requires Exec(cfg, Init(cfg), schedule).Some? && Final(Exec(cfg, Init(cfg), schedule).value)
    requires EndsAt(cfg.script, n)
    ensures var ran, script := Exec(cfg, Init(cfg), schedule).value.ran, cfg.script;
      var failed := n < |script| && script[n].Failure?;
      var before := MessageCalls(script[..n]) + if cfg.hasOnError && failed then [OnError(script[n].error)] else [];
      var close :=
        if n == |script| || failed then CloseEvent(1006, "")
        else if script[n].frame.None? then CloseEvent(1005, "")
        else script[n].frame.value;
      if ReceiverAbort !in schedule then ran == before + (if cfg.hasOnClose then [OnClose(close)] else [])
      else k <= |before| && ran == before[..k] + (if cfg.hasOnClose then [OnClose(CloseEvent(1006, ""))] else [])
  {
    OwedCloseSpelled(cfg.script, n);
    BeforeCloseSpelled(cfg, cfg.script, n);
    if ReceiverAbort in schedule {
      k := AbortedRunDelivers(cfg, schedule);
    } else {
      k := 0;
      CleanRunDelivers(cfg, schedule);
    }
  }
}
