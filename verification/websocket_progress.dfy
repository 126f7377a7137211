/**
 Flow control and progress of the WebSocket pipeline: no message is lost or duplicated on the way,
 the number of undelivered messages is bounded, and every run ends.
 */
module WebSocketProgress {
  import opened Sequences
  import opened WebSocketPipeline
  import opened WebSocketDelivery

  // ----- Conservation of messages -----

  /** The message the receiver has read but not sent; a message lost to an abort counts here. */
  function InReceiver(receiver: Receiver): seq<Message> {
    match receiver
    case SendingMessage(msg) => [msg]
    case Aborted(lost) => lost
    case _ => []
  }

  function InConsumer(consumer: Consumer): seq<Message> {
    match consumer
    case AcquiringPermit(msg) => [msg]
    case HoldingPermit(msg) => [msg]
    case _ => []
  }

  /** What the consumer and the JavaScript thread have of the messages whose callback has not run. */
  function Downstream(s: State): seq<Message> {
    MessagesCalled(s.queue) + InConsumer(s.consumer)
  }

  /** What the channel and the receiver have of them. */
  function Upstream(s: State): seq<Message> {
    MessagesSent(s.channel) + InReceiver(s.receiver)
  }

  /** Messages read from the socket whose callback has not run, oldest first. */
  function Undelivered(s: State): seq<Message> {
    Downstream(s) + Upstream(s)
  }

  predicate Conserved(s: State) {
    MessagesRead(s.read) == MessagesCalled(s.ran) + Undelivered(s)
  }

  lemma {:induction false} MessagesReadSnoc(items: seq<SocketItem>, item: SocketItem)
    ensures MessagesRead(items + [item])
         == MessagesRead(items) + (if item.Data? then [item.msg] else [])
  {
    if items == [] {
    } else {
      assert (items + [item])[1..] == items[1..] + [item];
      MessagesReadSnoc(items[1..], item);
      Associate(if items[0].Data? then [items[0].msg] else [], MessagesRead(items[1..]),
                if item.Data? then [item.msg] else []);
    }
  }

  lemma {:induction false} MessagesSentSnoc(events: seq<WsEvent>, event: WsEvent)
    ensures MessagesSent(events + [event])
         == MessagesSent(events) + (if event.MessageEvent? then [event.msg] else [])
  {
    if events == [] {
    } else {
      assert (events + [event])[1..] == events[1..] + [event];
      MessagesSentSnoc(events[1..], event);
      Associate(if events[0].MessageEvent? then [events[0].msg] else [], MessagesSent(events[1..]),
                if event.MessageEvent? then [event.msg] else []);
    }
  }

  lemma PollConserves(s: State)
    requires Conserved(s) && Poll(s).Some?
    ensures Conserved(Poll(s).value)
  {
    var next := Poll(s).value;
    if s.unread == [] {
      assert Upstream(next) == Upstream(s);
    } else {
      var item := s.unread[0];
      var added := if item.Data? then [item.msg] else [];
      PollTakes(s);
      MessagesReadSnoc(s.read, item);
      assert Upstream(next) == Upstream(s) + added;
      Associate(Downstream(s), Upstream(s), added);
      Associate(MessagesCalled(s.ran), Undelivered(s), added);
    }
  }

  /** Polling moves an item to those read, and its message, if it has one, into the receiver. */
  lemma PollTakes(s: State)
    requires Poll(s).Some? && s.unread != []
    ensures var next, item := Poll(s).value, s.unread[0];
      && InReceiver(s.receiver) == [] && InReceiver(next.receiver) == (if item.Data? then [item.msg] else [])
      && next == s.(unread := s.unread[1..], read := s.read + [item], receiver := next.receiver)
  {
  }

  lemma SendKeepsUpstream(s: State)
    requires |s.channel| < WS_EVENT_BUFFER && !ChannelClosed(s) && Send(s).Some?
    ensures Upstream(Send(s).value) == Upstream(s)
  {
    var event := ReceiverEvent(s.receiver);
    MessagesSentSnoc(s.channel, event);
    assert Send(s).value.channel == s.channel + [event];
  }

  /** The event the receiver is about to send. */
  function ReceiverEvent(receiver: Receiver): WsEvent
    requires Active(receiver) && !receiver.Reading?
  {
    match receiver
    case SendingMessage(msg) => MessageEvent(msg)
    case SendingError(error) => ErrorEvent(error)
    case SendingClose(event) => ClosedEvent(event)
    case SendingFallback => ClosedEvent(AbnormalCloseEvent())
  }

  lemma SendConserves(cfg: Config, s: State)
    requires Inv(cfg, s) && Conserved(s) && Send(s).Some?
    ensures Conserved(Send(s).value)
  {
    SendKeepsUpstream(s);
    SendKeepsDownstream(s);
  }

  lemma SendKeepsDownstream(s: State)
    requires Send(s).Some?
    ensures Downstream(Send(s).value) == Downstream(s)
    ensures Send(s).value.ran == s.ran && Send(s).value.read == s.read
  {
  }

  lemma ReceivedDownstream(cfg: Config, s: State)
    requires Receive(cfg, s).Some? && s.channel != []
    ensures Downstream(Receive(cfg, s).value)
         == Downstream(s) + (if s.channel[0].MessageEvent? then [s.channel[0].msg] else [])
  {
    var next := Receive(cfg, s).value;
    if !s.channel[0].MessageEvent? {
      var added := EventCallbacks(cfg, s.channel[0], s.closeEmitted);
      assert next.queue == s.queue + added && MessagesCalled(added) == [];
      MessagesCalledConcat(s.queue, added);
    }
  }

  lemma ReceivedUpstream(cfg: Config, s: State)
    requires Receive(cfg, s).Some? && s.channel != []
    ensures var next := Receive(cfg, s).value;
      && Upstream(s) == (if s.channel[0].MessageEvent? then [s.channel[0].msg] else []) + Upstream(next)
      && next.ran == s.ran && next.read == s.read
  {
    var next := Receive(cfg, s).value;
    assert next.channel == s.channel[1..] && next.receiver == s.receiver;
    var head := if s.channel[0].MessageEvent? then [s.channel[0].msg] else [];
    Associate(head, MessagesSent(next.channel), InReceiver(s.receiver));
  }

  lemma ReceiveConserves(cfg: Config, s: State)
    requires Conserved(s) && Receive(cfg, s).Some?
    ensures Conserved(Receive(cfg, s).value)
  {
    if s.channel != [] {
      ReceivedDownstream(cfg, s);
      ReceivedUpstream(cfg, s);
      var head := if s.channel[0].MessageEvent? then [s.channel[0].msg] else [];
      Associate(Downstream(s), head, Upstream(Receive(cfg, s).value));
    }
  }

  lemma EnqueueConserves(s: State)
    requires Conserved(s) && Enqueue(s).Some?
    ensures Conserved(Enqueue(s).value)
  {
    MessagesCalledConcat(s.queue, [OnMessage(s.consumer.msg)]);
    assert MessagesCalled([OnMessage(s.consumer.msg)]) == [s.consumer.msg] + MessagesCalled([]);
    assert Downstream(Enqueue(s).value) == Downstream(s);
  }

  lemma FallbackConserves(cfg: Config, s: State)
    requires Conserved(s) && Fallback(cfg, s).Some?
    ensures Conserved(Fallback(cfg, s).value)
  {
    var next, close := Fallback(cfg, s).value, CloseCallback(cfg, AbnormalCloseEvent());
    assert MessagesCalled(close) == [];
    MessagesCalledConcat(s.queue, close);
    assert MessagesCalled(next.queue) == MessagesCalled(s.queue);
    assert Undelivered(next) == Undelivered(s);
  }

  lemma JsRunDownstream(s: State)
    requires RunCallback(s).Some?
    ensures MessagesCalled(s.ran) + Downstream(s)
         == MessagesCalled(RunCallback(s).value.ran) + Downstream(RunCallback(s).value)
  {
    MessagesCalledConcat(s.ran, [s.queue[0]]);
    MessagesCalledConcat([s.queue[0]], s.queue[1..]);
    assert s.queue == [s.queue[0]] + s.queue[1..];
  }

  lemma JsRunConserves(s: State)
    requires Conserved(s) && RunCallback(s).Some?
    ensures Conserved(RunCallback(s).value)
  {
    var next := RunCallback(s).value;
    JsRunDownstream(s);
    assert Upstream(next) == Upstream(s);
    Associate(MessagesCalled(s.ran), Downstream(s), Upstream(s));
    Associate(MessagesCalled(next.ran), Downstream(next), Upstream(next));
  }

  /** The other steps leave the messages where they are; an abort takes along the one in hand. */
  lemma OtherStepsKeepMessages(cfg: Config, s: State, a: Action)
    requires a in {ReceiverAbort, ConsumerAcquire, ConsumerUnregister, JsReturn, UserClose}
    requires Step(cfg, s, a).Some?
    ensures var next := Step(cfg, s, a).value;
      && next.read == s.read && next.ran == s.ran && next.queue == s.queue && next.channel == s.channel
      && InConsumer(next.consumer) == InConsumer(s.consumer) && InReceiver(next.receiver) == InReceiver(s.receiver)
  {
  }

  lemma OtherStepsConserve(cfg: Config, s: State, a: Action)
    requires a in {ReceiverAbort, ConsumerAcquire, ConsumerUnregister, JsReturn, UserClose}
    requires Conserved(s) && Step(cfg, s, a).Some?
    ensures Conserved(Step(cfg, s, a).value)
  {
    OtherStepsKeepMessages(cfg, s, a);
    ConservedFrame(s, Step(cfg, s, a).value);
  }

  /** Only these parts of a state matter. */
  lemma ConservedFrame(s: State, next: State)
    requires Conserved(s) && next.read == s.read && next.ran == s.ran
    requires next.queue == s.queue && next.channel == s.channel
    requires InConsumer(next.consumer) == InConsumer(s.consumer)
    requires InReceiver(next.receiver) == InReceiver(s.receiver)
    ensures Conserved(next)
  {
  }

  lemma StepConserves(cfg: Config, s: State, a: Action)
    requires Inv(cfg, s) && Conserved(s) && Step(cfg, s, a).Some?
    ensures Conserved(Step(cfg, s, a).value)
  {
    match a {
      case ReceiverPoll => PollConserves(s);
      case ReceiverSend => SendConserves(cfg, s);
      case ConsumerReceive => ReceiveConserves(cfg, s);
      case ConsumerEnqueue => EnqueueConserves(s);
      case ConsumerFallback => FallbackConserves(cfg, s);
      case JsRun => JsRunConserves(s);
      case _ => OtherStepsConserve(cfg, s, a);
    }
  }

  lemma {:induction false} ExecConserves(cfg: Config, s: State, schedule: seq<Action>)
    requires Inv(cfg, s) && Conserved(s) && Exec(cfg, s, schedule).Some?
    ensures Inv(cfg, Exec(cfg, s, schedule).value) && Conserved(Exec(cfg, s, schedule).value)
    decreases |schedule|
  {
    if schedule != [] {
      StepKeeps(cfg, s, schedule[0]);
      StepConserves(cfg, s, schedule[0]);
      ExecConserves(cfg, Step(cfg, s, schedule[0]).value, schedule[1..]);
    }
  }

  lemma MessagesSentBound(events: seq<WsEvent>)
    ensures |MessagesSent(events)| <= |events|
  {
  }

  /**
   In every reachable state, the messages read from the socket are, in order, those whose callback
   ran followed by those under way. Of the latter there are at most 130: one with each task, a full
   channel and a full set of permits. An abort loses at most the one message in hand.
   */
  lemma BackPressure(cfg: Config, schedule: seq<Action>)
    requires Exec(cfg, Init(cfg), schedule).Some?
    ensures var s := Exec(cfg, Init(cfg), schedule).value;
      && MessagesRead(s.read) == MessagesCalled(s.ran) + Undelivered(s)
      && |Undelivered(s)| <= 130
      && |s.channel| <= 64
      && s.permits + Held(s.consumer) + |MessagesCalled(s.queue)| + RunningMessages(s.running) == 64
      && (s.receiver.Aborted? ==> |s.receiver.lost| <= 1)
  {
    InitialPlan(cfg);
    ExecConserves(cfg, Init(cfg), schedule);
    ExecLosesAtMostOne(cfg, Init(cfg), schedule);
    UndeliveredBound(cfg, Exec(cfg, Init(cfg), schedule).value);
  }

  lemma UndeliveredBound(cfg: Config, s: State)
    requires Inv(cfg, s) && |InReceiver(s.receiver)| <= 1
    ensures |Undelivered(s)| <= 130 && |s.channel| <= 64
  {
    MessagesSentBound(s.channel);
  }

  lemma {:induction false} ExecLosesAtMostOne(cfg: Config, s: State, schedule: seq<Action>)
    requires |InReceiver(s.receiver)| <= 1 && Exec(cfg, s, schedule).Some?
    ensures |InReceiver(Exec(cfg, s, schedule).value.receiver)| <= 1
    decreases |schedule|
  {
    if schedule != [] {
      ExecLosesAtMostOne(cfg, Step(cfg, s, schedule[0]).value, schedule[1..]);
    }
  }

  // ----- Progress and termination -----

  function ReceiverWork(receiver: Receiver): nat {
    match receiver
    case Reading => 7
    case SendingMessage(_) => 13
    case SendingError(_) => 12
    case SendingClose(_) => 6
    case SendingFallback => 6
    case _ => 0
  }

  function ConsumerWork(consumer: Consumer): nat {
    match consumer
    case Receiving => 5
    case AcquiringPermit(_) => 9
    case HoldingPermit(_) => 8
    case LeftLoop => 4
    case Unregistering => 1
    case Finished => 0
  }

  /** A bound on the number of steps still to come. */
  function Work(s: State): nat {
    7 * |s.unread| + ReceiverWork(s.receiver) + 5 * |s.channel| + ConsumerWork(s.consumer)
    + 2 * |s.queue| + (if s.running.Some? then 1 else 0) + (if s.registered then 1 else 0)
  }

  lemma StepDoesWork(cfg: Config, s: State, a: Action)
    requires Inv(cfg, s) && Step(cfg, s, a).Some?
    ensures Work(Step(cfg, s, a).value) < Work(s)
  {
    match a {
      case ReceiverPoll => PollDoesWork(s);
      case ReceiverSend => SendDoesWork(s);
      case ConsumerReceive => ReceiveDoesWork(cfg, s);
      case _ =>
    }
  }

  lemma PollDoesWork(s: State)
    requires Poll(s).Some?
    ensures Work(Poll(s).value) < Work(s)
  {
  }

  lemma SendDoesWork(s: State)
    requires Send(s).Some?
    ensures Work(Send(s).value) < Work(s)
  {
    SendUsesUp(s);
  }

  /** A send costs the receiver more than the event it adds is worth, and touches nothing else. */
  lemma SendUsesUp(s: State)
    requires Send(s).Some?
    ensures var next := Send(s).value;
      && ReceiverWork(next.receiver) + 5 * (|next.channel| - |s.channel|) < ReceiverWork(s.receiver)
      && next == s.(channel := next.channel, receiver := next.receiver, closeSent := next.closeSent)
  {
  }

  lemma ReceiveDoesWork(cfg: Config, s: State)
    requires Receive(cfg, s).Some?
    ensures Work(Receive(cfg, s).value) < Work(s)
  {
  }

  lemma {:induction false} ExecDoesWork(cfg: Config, s: State, schedule: seq<Action>)
    requires Inv(cfg, s) && Exec(cfg, s, schedule).Some?
    ensures Inv(cfg, Exec(cfg, s, schedule).value)
    ensures |schedule| + Work(Exec(cfg, s, schedule).value) <= Work(s)
    decreases |schedule|
  {
    if schedule != [] {
      StepKeeps(cfg, s, schedule[0]);
      StepDoesWork(cfg, s, schedule[0]);
      ExecDoesWork(cfg, Step(cfg, s, schedule[0]).value, schedule[1..]);
    }
  }

  /** An action other than an abort or a close by the user that can be taken now. */
  function Enabled(cfg: Config, s: State): (a: Action)
    requires Inv(cfg, s) && !Final(s)
    ensures Step(cfg, s, a).Some? && a != ReceiverAbort && a != UserClose
  {
    if s.running.Some? then JsReturn
    else if s.queue != [] then JsRun
    else if s.consumer.HoldingPermit? then ConsumerEnqueue
    else if s.consumer.AcquiringPermit? then ConsumerAcquire
    else if s.consumer.LeftLoop? then ConsumerFallback
    else if s.consumer.Unregistering? then ConsumerUnregister
    else if s.consumer.Receiving? && (s.channel != [] || !Active(s.receiver)) then ConsumerReceive
    else if s.receiver.Reading? then ReceiverPoll
    else ReceiverSend
  }

  /**
   Runs are bounded by the length of the socket script, and a run that cannot continue on its own has
   closed, drained every queue and unregistered its connection. So no schedule deadlocks.
   */
  lemma EveryRunEnds(cfg: Config, schedule: seq<Action>)
    requires Exec(cfg, Init(cfg), schedule).Some?
    ensures |schedule| <= 7 * |cfg.script| + 13
    ensures var s := Exec(cfg, Init(cfg), schedule).value;
      (forall a :: Step(cfg, s, a).Some? ==> a == ReceiverAbort || a == UserClose) <==> Final(s)
    ensures var s := Exec(cfg, Init(cfg), schedule).value;
      Final(s) ==> !s.registered && (forall a :: Step(cfg, s, a).None?)
  {
    InitialPlan(cfg);
    ExecDoesWork(cfg, Init(cfg), schedule);
    StuckOnlyWhenFinal(cfg, Exec(cfg, Init(cfg), schedule).value);
  }

  lemma StuckOnlyWhenFinal(cfg: Config, s: State)
    requires Inv(cfg, s)
    ensures (forall a :: Step(cfg, s, a).Some? ==> a == ReceiverAbort || a == UserClose) <==> Final(s)
    ensures Final(s) ==> !s.registered && (forall a :: Step(cfg, s, a).None?)
  {
    if Final(s) {
      forall a ensures Step(cfg, s, a).None? {
        FinalIsStuck(cfg, s, a);
      }
    } else {
      assert Step(cfg, s, Enabled(cfg, s)).Some?;
    }
  }

  lemma FinalIsStuck(cfg: Config, s: State, a: Action)
    requires Inv(cfg, s) && Final(s)
    ensures Step(cfg, s, a).None?
  {
  }

  lemma {:induction false} ExecKeepsRegistration(cfg: Config, s: State, schedule: seq<Action>)
    requires Exec(cfg, s, schedule).Some? && (s.consumer.Finished? ==> !s.registered)
    ensures var end := Exec(cfg, s, schedule).value;
      && (end.registered <==> s.registered && UserClose !in schedule && !end.consumer.Finished?)
      && (s.consumer.Finished? ==> end.consumer.Finished?)
    decreases |schedule|
  {
    if schedule != [] {
      StepKeepsRegistration(cfg, s, schedule[0]);
      ExecKeepsRegistration(cfg, Step(cfg, s, schedule[0]).value, schedule[1..]);
    }
  }

  lemma StepKeepsRegistration(cfg: Config, s: State, a: Action)
    requires Step(cfg, s, a).Some? && (s.consumer.Finished? ==> !s.registered)
    ensures var next := Step(cfg, s, a).value;
      && (next.registered <==> s.registered && a != UserClose && !next.consumer.Finished?)
      && (s.consumer.Finished? ==> next.consumer.Finished?)
  {
  }

  /**
   Over every schedule, the connection stays registered exactly until the user has closed it or the
   consumer task, which has then seen the end of the channel and owes no callback, has finished.
   */
  lemma RegisteredUntilDone(cfg: Config, schedule: seq<Action>)
    requires Exec(cfg, Init(cfg), schedule).Some?
    ensures var s := Exec(cfg, Init(cfg), schedule).value;
      && (s.registered <==> UserClose !in schedule && !s.consumer.Finished?)
      && (s.consumer.Finished? ==> !Active(s.receiver) && s.channel == [])
  {
    InitialPlan(cfg);
    ExecConserves(cfg, Init(cfg), schedule);
    ExecKeepsRegistration(cfg, Init(cfg), schedule);
  }

  lemma {:induction false} ExecConcat(cfg: Config, s: State, first: seq<Action>, second: seq<Action>)
    requires Exec(cfg, s, first).Some?
    ensures Exec(cfg, s, first + second) == Exec(cfg, Exec(cfg, s, first).value, second)
    decreases |first|
  {
    if first == [] {
      assert first + second == second;
    } else {
      assert (first + second)[1..] == first[1..] + second;
      ExecConcat(cfg, Step(cfg, s, first[0]).value, first[1..], second);
    }
  }

  /** Left alone, the tasks bring any reachable state to its end, along the plan it has. */
  lemma {:induction false} Drain(cfg: Config, s: State) returns (schedule: seq<Action>)
    requires Inv(cfg, s)
    ensures ReceiverAbort !in schedule && Exec(cfg, s, schedule).Some?
    ensures var end := Exec(cfg, s, schedule).value; Final(end) && end.ran == Plan(cfg, s)
    decreases Work(s)
  {
    if Final(s) {
      schedule := [];
      FinalOwesNothing(cfg, s);
    } else {
      var a := Enabled(cfg, s);
      StepKeeps(cfg, s, a);
      StepDoesWork(cfg, s, a);
      var rest := Drain(cfg, Step(cfg, s, a).value);
      schedule := [a] + rest;
      assert schedule[1..] == rest;
    }
  }
}
