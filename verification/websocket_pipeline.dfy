/**
 The pipeline that `setup_ws_callbacks` wires up for one WebSocket: a receiver task that reads the
 socket and feeds a bounded channel, a consumer task that takes events out of the channel and
 enqueues closures for the JavaScript thread, and the JavaScript thread that runs them.

 The tasks interleave freely, so the pipeline is a step function over a state. Every step is the
 code between two points at which another task can be scheduled. A run is any sequence of steps.
 */
module WebSocketPipeline {
  import opened Wrappers

  /** Capacity of the event channel, and also the number of message permits. */
  const WS_EVENT_BUFFER: nat := 64

  /** RFC 6455, section 7.4.1: no status code was present in the close frame. */
  const NO_STATUS_RECEIVED: nat := 1005

  /** RFC 6455, section 7.4.1: the connection ended without a close frame. */
  const ABNORMAL_CLOSURE: nat := 1006

  datatype CloseEvent = CloseEvent(code: nat, reason: string)

  datatype Message = Text(text: string) | Binary(data: seq<bv8>)

  /** What one poll of the socket yields; the end of the script is the end of the stream. */
  datatype SocketItem =
    | Data(msg: Message)
    | CloseFrame(frame: Option<CloseEvent>)
    | Control  // ping or pong
    | Failure(error: string)

  datatype WsEvent =
    | MessageEvent(msg: Message)
    | ErrorEvent(error: string)
    | ClosedEvent(event: CloseEvent)

  /** A closure enqueued for, or run by, the JavaScript thread. */
  datatype Callback =
    | OnMessage(msg: Message)
    | OnError(error: string)
    | OnClose(event: CloseEvent)

  /** Where the receiver task stands. `Aborted` remembers a message it was about to send. */
  datatype Receiver =
    | Reading
    | SendingMessage(msg: Message)
    | SendingError(error: string)
    | SendingClose(event: CloseEvent)
    | SendingFallback
    | Ended
    | Aborted(lost: seq<Message>)

  datatype Consumer =
    | Receiving
    | AcquiringPermit(msg: Message)
    | HoldingPermit(msg: Message)
    | LeftLoop
    | Unregistering
    | Finished

  /** The socket's behaviour and which of the optional callbacks the user passed. */
  datatype Config = Config(script: seq<SocketItem>, hasOnClose: bool, hasOnError: bool)

  datatype State = State(
    unread: seq<SocketItem>,
    read: seq<SocketItem>,
    receiver: Receiver,
    closeSent: bool,
    channel: seq<WsEvent>,
    consumer: Consumer,
    closeEmitted: bool,
    permits: nat,
    queue: seq<Callback>,
    running: Option<Callback>,
    ran: seq<Callback>,
    registered: bool)

  datatype Action =
    | ReceiverPoll
    | ReceiverSend
    | ReceiverAbort
    | ConsumerReceive
    | ConsumerAcquire
    | ConsumerEnqueue
    | ConsumerFallback
    | ConsumerUnregister
    | JsRun
    | JsReturn
    | UserClose

  function DefaultCloseEvent(): CloseEvent {
    CloseEvent(NO_STATUS_RECEIVED, "")
  }

  function AbnormalCloseEvent(): CloseEvent {
    CloseEvent(ABNORMAL_CLOSURE, "")
  }

  function CloseEventOf(frame: Option<CloseEvent>): CloseEvent {
    frame.GetOr(DefaultCloseEvent())
  }

  function Init(cfg: Config): State {
    State(cfg.script, [], Reading, false, [], Receiving, false, WS_EVENT_BUFFER, [], None, [], true)
  }

  predicate Active(receiver: Receiver) {
    !receiver.Ended? && !receiver.Aborted?
  }

  /** The consumer task owns the receiving half of the channel until it returns. */
  predicate ChannelClosed(s: State) {
    s.consumer.Finished?
  }

  /** Leaving the read loop: the fallback close is sent only when no close was sent before. */
  function LeaveReadLoop(s: State): State {
    s.(receiver := if s.closeSent then Ended else SendingFallback)
  }

  /** One item read from the socket. */
  function Poll(s: State): Option<State> {
    if !s.receiver.Reading? then None
    else if s.unread == [] then Some(LeaveReadLoop(s))
    else
      var next := s.(unread := s.unread[1..], read := s.read + [s.unread[0]]);
      match s.unread[0]
      case Data(msg) => Some(next.(receiver := SendingMessage(msg)))
      case CloseFrame(frame) => Some(next.(receiver := SendingClose(CloseEventOf(frame))))
      case Control => Some(next)
      case Failure(error) => Some(next.(receiver := SendingError(error)))
  }

  /** A `send` on the channel that has completed, successfully or because the channel is closed. */
  function Send(s: State): Option<State> {
    if !ChannelClosed(s) && |s.channel| >= WS_EVENT_BUFFER then None
    else
      match s.receiver
      case SendingMessage(msg) =>
        if ChannelClosed(s) then Some(LeaveReadLoop(s))
        else Some(s.(channel := s.channel + [MessageEvent(msg)], receiver := Reading))
      case SendingError(error) =>
        Some(Push(s, ErrorEvent(error)).(receiver := SendingClose(AbnormalCloseEvent())))
      case SendingClose(event) =>
        Some(LeaveReadLoop(Push(s, ClosedEvent(event)).(closeSent := true)))
      case SendingFallback =>
        Some(Push(s, ClosedEvent(AbnormalCloseEvent())).(receiver := Ended))
      case _ => None
  }

  /** A send whose result the code ignores. */
  function Push(s: State, event: WsEvent): State {
    if ChannelClosed(s) then s else s.(channel := s.channel + [event])
  }

  /** The receiver task dies at an await point; its sender is dropped with it. */
  function Abort(s: State): Option<State> {
    if !Active(s.receiver) then None
    else Some(s.(receiver := Aborted(if s.receiver.SendingMessage? then [s.receiver.msg] else [])))
  }

  /** The consumer's `recv`, with the code that follows it up to the next await point. */
  function Receive(cfg: Config, s: State): Option<State> {
    if !s.consumer.Receiving? then None
    else if s.channel == [] then
      if Active(s.receiver) then None else Some(s.(consumer := LeftLoop))
    else
      var next := s.(channel := s.channel[1..]);
      match s.channel[0]
      case MessageEvent(msg) => Some(next.(consumer := AcquiringPermit(msg)))
      case ErrorEvent(error) =>
        Some(if cfg.hasOnError then next.(queue := s.queue + [OnError(error)]) else next)
      case ClosedEvent(event) =>
        if s.closeEmitted then Some(next)
        else Some(next.(closeEmitted := true, queue := s.queue + CloseCallback(cfg, event)))
  }

  function CloseCallback(cfg: Config, event: CloseEvent): seq<Callback> {
    if cfg.hasOnClose then [OnClose(event)] else []
  }

  function Acquire(s: State): Option<State> {
    if s.consumer.AcquiringPermit? && s.permits > 0 then
      Some(s.(permits := s.permits - 1, consumer := HoldingPermit(s.consumer.msg)))
    else None
  }

  /** The permit moves into the enqueued closure. */
  function Enqueue(s: State): Option<State> {
    if s.consumer.HoldingPermit? then
      Some(s.(queue := s.queue + [OnMessage(s.consumer.msg)], consumer := Receiving))
    else None
  }

  function Fallback(cfg: Config, s: State): Option<State> {
    if !s.consumer.LeftLoop? then None
    else if s.closeEmitted then Some(s.(consumer := Unregistering))
    else Some(s.(consumer := Unregistering, queue := s.queue + CloseCallback(cfg, AbnormalCloseEvent())))
  }

  function Unregister(s: State): Option<State> {
    if s.consumer.Unregistering? then Some(s.(consumer := Finished, registered := false)) else None
  }

  function RunCallback(s: State): Option<State> {
    if s.running.None? && s.queue != [] then
      Some(s.(running := Some(s.queue[0]), ran := s.ran + [s.queue[0]], queue := s.queue[1..]))
    else None
  }

  /** The closure returns, normally or with an exception, and drops the permit it holds. */
  function ReturnFromCallback(s: State): Option<State> {
    match s.running
    case Some(OnMessage(_)) => Some(s.(running := None, permits := s.permits + 1))
    case Some(_) => Some(s.(running := None))
    case None => None
  }

  /** `websocket_close` removes the connection after it has sent its close frame. */
  function CloseByUser(s: State): Option<State> {
    if s.registered then Some(s.(registered := false)) else None
  }

  function Step(cfg: Config, s: State, a: Action): Option<State> {
    match a
    case ReceiverPoll => Poll(s)
    case ReceiverSend => Send(s)
    case ReceiverAbort => Abort(s)
    case ConsumerReceive => Receive(cfg, s)
    case ConsumerAcquire => Acquire(s)
    case ConsumerEnqueue => Enqueue(s)
    case ConsumerFallback => Fallback(cfg, s)
    case ConsumerUnregister => Unregister(s)
    case JsRun => RunCallback(s)
    case JsReturn => ReturnFromCallback(s)
    case UserClose => CloseByUser(s)
  }

  /** The state after a schedule, or None when some step of it was not enabled. */
  function Exec(cfg: Config, s: State, schedule: seq<Action>): Option<State>
    decreases |schedule|
  {
    if schedule == [] then Some(s)
    else
      match Step(cfg, s, schedule[0])
      case Some(next) => Exec(cfg, next, schedule[1..])
      case None => None
  }

  predicate Final(s: State) {
    && !Active(s.receiver)
    && s.consumer.Finished?
    && s.queue == []
    && s.running.None?
  }

  // ----- What the socket script promises, stated without the pipeline -----

  /** The error and message callbacks owed before the close callback. */
  function BeforeClose(cfg: Config, script: seq<SocketItem>): seq<Callback> {
    if script == [] then []
    else
      match script[0]
      case Data(msg) => [OnMessage(msg)] + BeforeClose(cfg, script[1..])
      case CloseFrame(_) => []
      case Control => BeforeClose(cfg, script[1..])
      case Failure(error) => if cfg.hasOnError then [OnError(error)] else []
  }

  /** The close event owed: that of the first close frame, or an abnormal one. */
  function OwedClose(script: seq<SocketItem>): CloseEvent {
    if script == [] then AbnormalCloseEvent()
    else
      match script[0]
      case CloseFrame(frame) => CloseEventOf(frame)
      case Failure(_) => AbnormalCloseEvent()
      case _ => OwedClose(script[1..])
  }

  /** All callbacks of a run in which the receiver is not aborted. */
  function CleanLog(cfg: Config): seq<Callback> {
    BeforeClose(cfg, cfg.script) + CloseCallback(cfg, OwedClose(cfg.script))
  }

  /** All callbacks of a run whose receiver is aborted after `k` events took effect. */
  function CutLog(cfg: Config, k: nat): seq<Callback>
    requires k <= |BeforeClose(cfg, cfg.script)|
  {
    BeforeClose(cfg, cfg.script)[..k] + CloseCallback(cfg, AbnormalCloseEvent())
  }

  /** The messages among socket items. */
  function MessagesRead(items: seq<SocketItem>): seq<Message> {
    if items == [] then []
    else (if items[0].Data? then [items[0].msg] else []) + MessagesRead(items[1..])
  }

  function MessagesSent(events: seq<WsEvent>): seq<Message> {
    if events == [] then []
    else (if events[0].MessageEvent? then [events[0].msg] else []) + MessagesSent(events[1..])
  }

  function MessagesCalled(callbacks: seq<Callback>): seq<Message> {
    if callbacks == [] then []
    else (if callbacks[0].OnMessage? then [callbacks[0].msg] else []) + MessagesCalled(callbacks[1..])
  }
}
