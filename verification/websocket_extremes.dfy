/**
 The guarantees of the WebSocket pipeline are sharp: every log that an abort may leave behind does
 occur, and the bound on undelivered messages is reached.
 */
module WebSocketExtremes {
  import opened WebSocketPipeline
  import opened WebSocketDelivery
  import opened WebSocketProgress

  lemma ExecSnoc(cfg: Config, s: State, schedule: seq<Action>, a: Action)
    requires Exec(cfg, s, schedule).Some?
    ensures Exec(cfg, s, schedule + [a]) == Step(cfg, Exec(cfg, s, schedule).value, a)
  {
    ExecConcat(cfg, s, schedule, [a]);
    var end := Exec(cfg, s, schedule).value;
    assert Exec(cfg, end, [a]) == Step(cfg, end, a);
  }

  /** Sending adds at most one callback to those taken; only sending the close ends the receiver. */
  lemma ToComeShrinksByOne(cfg: Config, s: State, a: Action)
    requires Inv(cfg, s) && Active(s.receiver) && a != ReceiverAbort && Step(cfg, s, a).Some?
    ensures var next := Step(cfg, s, a).value;
      if Active(next.receiver) then |ToCome(cfg, s)| <= |ToCome(cfg, next)| + 1
      else |ToCome(cfg, s)| <= |CloseCallback(cfg, AbnormalCloseEvent())|
  {
    var next := Step(cfg, s, a).value;
    if a == ReceiverSend {
      SendShrinksByOne(cfg, s);
    } else if a != ReceiverPoll {
      assert next.receiver == s.receiver && next.unread == s.unread;
    }
  }

  lemma SendShrinksByOne(cfg: Config, s: State)
    requires Inv(cfg, s) && Active(s.receiver) && Send(s).Some?
    ensures var next := Send(s).value;
      if Active(next.receiver) then |ToCome(cfg, s)| <= |ToCome(cfg, next)| + 1
      else |ToCome(cfg, s)| <= |CloseCallback(cfg, AbnormalCloseEvent())|
  {
    var view := ReceiverView(s.receiver, s.unread);
    assert view == [view[0]] + view[1..];
    ConsumerViewCons(cfg, view[0], view[1..], false);
  }

  /** A run can be stopped with the receiver alive and any number of callbacks taken. */
  lemma {:induction false} ReachTaken(cfg: Config, s: State, k: nat) returns (schedule: seq<Action>)
    requires Inv(cfg, s) && Plan(cfg, s) == CleanLog(cfg) && Active(s.receiver)
    requires |Taken(cfg, s)| <= k <= |BeforeClose(cfg, cfg.script)|
    ensures Exec(cfg, s, schedule).Some?
    ensures var end := Exec(cfg, s, schedule).value;
      && Inv(cfg, end) && Plan(cfg, end) == CleanLog(cfg)
      && Active(end.receiver) && |Taken(cfg, end)| == k
    decreases Work(s)
  {
    if |Taken(cfg, s)| == k {
      schedule := [];
    } else {
      var a := Enabled(cfg, s);
      var next := Step(cfg, s, a).value;
      StepKeeps(cfg, s, a);
      StepDoesWork(cfg, s, a);
      PlanSplits(cfg, s);
      ToComeShrinksByOne(cfg, s, a);
      PlanSplits(cfg, next);
      var rest := ReachTaken(cfg, next, k);
      schedule := [a] + rest;
      assert schedule[1..] == rest;
    }
  }

  /** Each cut of the log is what some finished run with an aborted receiver leaves behind. */
  lemma EveryCutHappens(cfg: Config, k: nat) returns (schedule: seq<Action>)
    requires k <= |BeforeClose(cfg, cfg.script)|
    ensures Exec(cfg, Init(cfg), schedule).Some?
    ensures var end := Exec(cfg, Init(cfg), schedule).value; Final(end) && end.ran == CutLog(cfg, k)
  {
    InitialPlan(cfg);
    var reach := ReachTaken(cfg, Init(cfg), k);
    var s := Exec(cfg, Init(cfg), reach).value;
    AbortCutsPlan(cfg, s);
    AbortKeepsInv(cfg, s);
    ExecSnoc(cfg, Init(cfg), reach, ReceiverAbort);
    var drain := Drain(cfg, Abort(s).value);
    schedule := reach + [ReceiverAbort] + drain;
    ExecConcat(cfg, Init(cfg), reach + [ReceiverAbort], drain);
  }

  // ----- The bound of 130 undelivered messages is reached -----

  predicate OnlyData(items: seq<SocketItem>) {
    forall i :: 0 <= i < |items| ==> items[i].Data?
  }

  predicate OnlyMessages(events: seq<WsEvent>) {
    forall i :: 0 <= i < |events| ==> events[i].MessageEvent?
  }

  lemma OnlyDataRead(items: seq<SocketItem>)
    requires OnlyData(items)
    ensures |MessagesRead(items)| == |items|
  {
  }

  lemma OnlyDataSplit(a: seq<SocketItem>, b: seq<SocketItem>)
    requires OnlyData(a + b)
    ensures OnlyData(a) && OnlyData(b)
  {
    assert forall i :: 0 <= i < |a| ==> a[i] == (a + b)[i];
    assert forall i :: 0 <= i < |b| ==> b[i] == (a + b)[|a| + i];
  }

  lemma OnlyMessagesSent(events: seq<WsEvent>)
    requires OnlyMessages(events)
    ensures |MessagesSent(events)| == |events|
  {
  }

  /** The JavaScript thread is busy elsewhere: no callback has run. */
  predicate NothingRuns(s: State) {
    && s.running.None? && s.ran == []
    && (s.receiver.Reading? || s.receiver.SendingMessage?)
    && InLoop(s.consumer)
    && OnlyMessages(s.channel)
    && OnlyData(s.unread)
  }

  predicate Stalled(cfg: Config, s: State) {
    Inv(cfg, s) && Conserved(s) && NothingRuns(s)
  }

  /** Unless 130 messages are undelivered, a task can go on without the JavaScript thread. */
  function NextWithoutJs(cfg: Config, s: State): (a: Action)
    requires Stalled(cfg, s) && |Undelivered(s)| < 130
    ensures a in {ReceiverPoll, ReceiverSend, ConsumerReceive, ConsumerAcquire, ConsumerEnqueue}
    ensures Step(cfg, s, a).Some?
  {
    OnlyMessagesSent(s.channel);
    if s.receiver.Reading? then ReceiverPoll
    else if |s.channel| < WS_EVENT_BUFFER then ReceiverSend
    else if s.consumer.Receiving? then ConsumerReceive
    else if s.consumer.HoldingPermit? then ConsumerEnqueue
    else ConsumerAcquire
  }

  lemma StillNothingRuns(cfg: Config, s: State, a: Action)
    requires NothingRuns(s) && s.unread != []
    requires a in {ReceiverPoll, ReceiverSend, ConsumerReceive, ConsumerAcquire, ConsumerEnqueue}
    requires Step(cfg, s, a).Some? && !ChannelClosed(s)
    ensures NothingRuns(Step(cfg, s, a).value)
  {
  }

  lemma {:induction false} FillUp(cfg: Config, s: State) returns (schedule: seq<Action>)
    requires OnlyData(cfg.script) && |cfg.script| == 130
    requires Stalled(cfg, s)
    ensures Exec(cfg, s, schedule).Some?
    ensures |Undelivered(Exec(cfg, s, schedule).value)| == 130
    decreases Work(s)
  {
    OnlyDataSplit(s.read, s.unread);
    OnlyDataRead(s.read);
    assert |s.read| + |s.unread| == |cfg.script|;
    if s.unread == [] {
      schedule := [];
    } else {
      var a := NextWithoutJs(cfg, s);
      StepKeeps(cfg, s, a);
      StepConserves(cfg, s, a);
      StepDoesWork(cfg, s, a);
      StillNothingRuns(cfg, s, a);
      var rest := FillUp(cfg, Step(cfg, s, a).value);
      schedule := [a] + rest;
      assert schedule[1..] == rest;
    }
  }

  /** 130 messages can be read before a single callback has run. */
  lemma BoundIsReached(cfg: Config) returns (schedule: seq<Action>)
    requires OnlyData(cfg.script) && |cfg.script| == 130
    ensures Exec(cfg, Init(cfg), schedule).Some?
    ensures |Undelivered(Exec(cfg, Init(cfg), schedule).value)| == 130
  {
    InitialPlan(cfg);
    schedule := FillUp(cfg, Init(cfg));
  }
}
