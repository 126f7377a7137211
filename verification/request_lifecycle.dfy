/**
 The life of one HTTP request: `request`, `make_request` and `cancel_request`, and the body handle
 that a streamed response leaves behind. The request task can be cancelled only while it awaits, so
 its steps are the code between two awaits; readers of the body interleave with it.
 */
module RequestLifecycle {
  import opened Wrappers
  import opened RequestEvents
  import opened BodyStreams
  import opened Text

  /** Responses whose declared length is at most this are buffered and returned inline. */
  const INLINE_BODY_MAX: nat := 2 * 1024 * 1024

  datatype ResponseHead = ResponseHead(status: nat, contentLength: Option<nat>)

  /** What the request is and how its environment behaves. A `None` response is a failed send. */
  datatype Config = Config(
    hasSink: bool,
    cancellable: bool,
    clientResolves: bool,
    methodText: string,
    methodAccepted: bool,
    response: Option<ResponseHead>,
    body: seq<BodyItem>)

  datatype RequestOutcome =
    | RequestFailed
    | NoBody
    | InlineBody(bytes: Bytes)
    | StreamedBody

  datatype RequestTask =
    | NotPolled
    | AwaitingSend
    | AwaitingBytes
    | Settling(outcome: RequestOutcome)
    | Settled(outcome: RequestOutcome)

  /** `registered` is membership in the cancellation registry, `cancelled` the token's own flag. */
  datatype State = State(task: RequestTask, registered: bool, cancelled: bool, body: Body)

  datatype Action =
    | PollRequest
    | AbortBranch
    | SettlePromise
    | CancelRequest
    | OnBody(action: BodyAction)

  const KNOWN_METHODS: seq<string> :=
    ["GET", "POST", "PUT", "DELETE", "PATCH", "HEAD", "OPTIONS", "CONNECT", "TRACE"]

  /** An empty method means GET. */
  function EffectiveMethod(cfg: Config): string {
    if cfg.methodText == "" then "GET" else cfg.methodText
  }

  predicate MethodSupported(cfg: Config) {
    EffectiveMethod(cfg) in KNOWN_METHODS || cfg.methodAccepted
  }

  predicate ResponseAllowsBody(status: nat, methodName: string) {
    Lower(methodName) != "head" && status !in {101, 204, 205, 304}
  }

  predicate InlineEligible(contentLength: Option<nat>) {
    contentLength.Some? && contentLength.value <= INLINE_BODY_MAX
  }

  /** Reading a whole response at once fails on the first error of its stream. */
  function ReadInline(body: seq<BodyItem>): Option<Bytes> {
    if forall i :: 0 <= i < |body| ==> body[i].Chunk? then Some(BytesOf(body)) else None
  }

  function Init(cfg: Config): State {
    State(NotPolled, cfg.cancellable, false, Body(cfg.body, [], false, None, None, None, [], [], []))
  }

  function Emit(cfg: Config, s: State, events: seq<Event>): State {
    if cfg.hasSink then s.(body := s.body.(events := s.body.events + events)) else s
  }

  /** `make_request` has returned; an error is reported before the promise settles. */
  function Finish(cfg: Config, s: State, outcome: RequestOutcome): State {
    (if outcome.RequestFailed? then Emit(cfg, s, [Error]) else s).(task := Settling(outcome))
  }

  function PollFirst(cfg: Config, s: State): State {
    if !cfg.clientResolves then Finish(cfg, s, RequestFailed)
    else if !MethodSupported(cfg) then Finish(cfg, Emit(cfg, s, [Start]), RequestFailed)
    else Emit(cfg, s, [Start, Sent]).(task := AwaitingSend)
  }

  function PollSend(cfg: Config, s: State): State {
    match cfg.response
    case None => Finish(cfg, s, RequestFailed)
    case Some(head) =>
      var seen := Emit(cfg, s, [Headers(head.contentLength)]);
      if !ResponseAllowsBody(head.status, EffectiveMethod(cfg)) then
        Finish(cfg, Emit(cfg, seen, [Done]), NoBody)
      else if InlineEligible(head.contentLength) then seen.(task := AwaitingBytes)
      else Finish(cfg, StoreBody(cfg, seen, head), StreamedBody)
  }

  /** The stream enters the cache; its event state exists only if someone listens. */
  function StoreBody(cfg: Config, s: State, head: ResponseHead): State {
    s.(body := s.body.(
      cached := true,
      contentLength := head.contentLength,
      progress := if cfg.hasSink then Some(0) else None))
  }

  function PollBytes(cfg: Config, s: State): State {
    match ReadInline(cfg.body)
    case None => Finish(cfg, s, RequestFailed)
    case Some(bytes) =>
      var n := |bytes|;
      Finish(cfg, Emit(cfg, s, [Progress(n, Some(n)), Complete(n, Some(n)), Done]), InlineBody(bytes))
  }

  predicate InFlight(task: RequestTask) {
    task.NotPolled? || task.AwaitingSend? || task.AwaitingBytes?
  }

  function Step(cfg: Config, s: State, a: Action): Option<State> {
    match a
    case PollRequest =>
      (match s.task
       case NotPolled => Some(PollFirst(cfg, s))
       case AwaitingSend => Some(PollSend(cfg, s))
       case AwaitingBytes => Some(PollBytes(cfg, s))
       case _ => None)
    case AbortBranch =>
      if s.cancelled && InFlight(s.task) then Some(Finish(cfg, s, RequestFailed)) else None
    case SettlePromise =>
      if s.task.Settling? then Some(s.(task := Settled(s.task.outcome), registered := false)) else None
    case CancelRequest =>
      Some(if s.registered then s.(registered := false, cancelled := true) else s)
    case OnBody(action) =>
      (match BodyStep(s.body, action)
       case Some(body) => Some(s.(body := body))
       case None => None)
  }

  function Exec(cfg: Config, s: State, schedule: seq<Action>): Option<State>
    decreases |schedule|
  {
    if schedule == [] then Some(s)
    else
      match Step(cfg, s, schedule[0])
      case Some(next) => Exec(cfg, next, schedule[1..])
      case None => None
  }
}
