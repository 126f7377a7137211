/** What a cancellation can change: whether a request in flight fails, and nothing else. */
module RequestCancellation {
  import opened Wrappers
  import opened BodyStreams
  import opened RequestLifecycle
  import RequestEvents
  import opened Text

  // ----- The outcome without the schedule -----

  /** The outcome that the request, its method and the response prescribe. */
  function PrescribedOutcome(cfg: Config): RequestOutcome {
    if !cfg.clientResolves || !MethodSupported(cfg) || cfg.response.None? then RequestFailed
    else if !ResponseAllowsBody(cfg.response.value.status, EffectiveMethod(cfg)) then NoBody
    else if !InlineEligible(cfg.response.value.contentLength) then StreamedBody
    else if exists i :: 0 <= i < |cfg.body| && cfg.body[i].ChunkError? then RequestFailed
    else InlineBody(BytesOf(cfg.body))
  }

  predicate OutcomeAllowed(cfg: Config, s: State, outcome: RequestOutcome) {
    outcome == PrescribedOutcome(cfg) || (s.cancelled && outcome.RequestFailed?)
  }

  predicate OnTrack(cfg: Config, s: State) {
    match s.task
    case NotPolled => true
    case AwaitingSend => cfg.clientResolves && MethodSupported(cfg)
    case AwaitingBytes =>
      && cfg.clientResolves && MethodSupported(cfg) && cfg.response.Some?
      && ResponseAllowsBody(cfg.response.value.status, EffectiveMethod(cfg))
      && InlineEligible(cfg.response.value.contentLength)
    case Settling(outcome) => OutcomeAllowed(cfg, s, outcome)
    case Settled(outcome) => OutcomeAllowed(cfg, s, outcome)
  }

  lemma StepStaysOnTrack(cfg: Config, s: State, a: Action)
    requires OnTrack(cfg, s) && Step(cfg, s, a).Some?
    ensures OnTrack(cfg, Step(cfg, s, a).value)
    ensures Step(cfg, s, a).value.cancelled ==> s.cancelled || (a == CancelRequest && s.registered)
    ensures Step(cfg, s, a).value.registered ==> s.registered
  {
  }

  lemma {:induction false} ExecStaysOnTrack(cfg: Config, s: State, schedule: seq<Action>)
    requires OnTrack(cfg, s) && Exec(cfg, s, schedule).Some?
    ensures OnTrack(cfg, Exec(cfg, s, schedule).value)
    ensures Exec(cfg, s, schedule).value.cancelled ==> s.cancelled || (CancelRequest in schedule && s.registered)
    decreases |schedule|
  {
    if schedule != [] {
      StepStaysOnTrack(cfg, s, schedule[0]);
      ExecStaysOnTrack(cfg, Step(cfg, s, schedule[0]).value, schedule[1..]);
    }
  }

  /**
   Whatever the schedule, a request ends with its prescribed outcome, unless it is cancellable and was
   cancelled; then it may have failed instead.
   */
  lemma OutcomeIsPrescribed(cfg: Config, schedule: seq<Action>)
    requires Exec(cfg, Init(cfg), schedule).Some?
    ensures var task := Exec(cfg, Init(cfg), schedule).value.task;
      task.Settling? || task.Settled? ==>
        || task.outcome == PrescribedOutcome(cfg)
        || (task.outcome.RequestFailed? && cfg.cancellable && CancelRequest in schedule)
  {
    ExecStaysOnTrack(cfg, Init(cfg), schedule);
  }

  // ----- The outcome spelled out -----

  /** The method is HEAD, in any case of its letters. */
  predicate IsHead(methodName: string) {
    && |methodName| == 4
    && (methodName[0] == 'H' || methodName[0] == 'h') && (methodName[1] == 'E' || methodName[1] == 'e')
    && (methodName[2] == 'A' || methodName[2] == 'a') && (methodName[3] == 'D' || methodName[3] == 'd')
  }

  lemma HeadIgnoringCase(methodName: string)
    ensures Lower(methodName) == "head" <==> IsHead(methodName)
  {
    if |methodName| == 4 {
      assert Lower(methodName)
          == [LowerAscii(methodName[0]), LowerAscii(methodName[1]), LowerAscii(methodName[2]), LowerAscii(methodName[3])];
      assert "head" == ['h', 'e', 'a', 'd'];
    }
  }

  /** An empty method stands for GET; other than the nine, the client library decides. */
  predicate HasKnownMethod(cfg: Config) {
    || cfg.methodText in {"", "GET", "POST", "PUT", "DELETE", "PATCH", "HEAD", "OPTIONS", "CONNECT", "TRACE"}
    || cfg.methodAccepted
  }

  /** The request gets a response: its client resolves and its method is supported. */
  predicate Arrives(cfg: Config) {
    cfg.clientResolves && cfg.response.Some? && HasKnownMethod(cfg)
  }

  lemma SupportedMethods(cfg: Config)
    ensures HasKnownMethod(cfg) <==> MethodSupported(cfg)
  {
    assert "GET" == KNOWN_METHODS[0];
    assert KNOWN_METHODS == ["GET", "POST", "PUT", "DELETE", "PATCH", "HEAD", "OPTIONS", "CONNECT", "TRACE"];
  }

  predicate HasNoBody(cfg: Config)
    requires cfg.response.Some?
  {
    IsHead(cfg.methodText) || cfg.response.value.status in {101, 204, 205, 304}
  }

  predicate IsSmall(cfg: Config)
    requires cfg.response.Some?
  {
    cfg.response.value.contentLength.Some? && cfg.response.value.contentLength.value <= 2097152
  }

  predicate Breaks(body: seq<BodyItem>) {
    exists i :: 0 <= i < |body| && body[i].ChunkError?
  }

  lemma PrescribedSpelled(cfg: Config)
    ensures var outcome := PrescribedOutcome(cfg);
      && (outcome.NoBody? <==> Arrives(cfg) && HasNoBody(cfg))
      && (outcome.StreamedBody? <==> Arrives(cfg) && !HasNoBody(cfg) && !IsSmall(cfg))
      && (outcome.InlineBody? <==> Arrives(cfg) && !HasNoBody(cfg) && IsSmall(cfg) && !Breaks(cfg.body))
      && (outcome.RequestFailed? <==> !Arrives(cfg) || (!HasNoBody(cfg) && IsSmall(cfg) && Breaks(cfg.body)))
      && (outcome.InlineBody? ==> outcome.bytes == BytesOf(cfg.body))
  {
    SupportedMethods(cfg);
    HeadIgnoringCase(EffectiveMethod(cfg));
    assert !IsHead("GET") && !IsHead("");
  }

  /**
   Over every schedule without a cancellation, how a request ends, in terms of its method, status, declared
   length and body: without a body exactly for HEAD and the statuses 101, 204, 205 and 304; inline exactly
   up to two mebibytes declared; streamed otherwise; and it fails exactly if no response arrives or an
   inline body breaks.
   */
  lemma OutcomeSpelled(cfg: Config, schedule: seq<Action>)
    requires Exec(cfg, Init(cfg), schedule).Some? && CancelRequest !in schedule
    requires !InFlight(Exec(cfg, Init(cfg), schedule).value.task)
    ensures var outcome := Exec(cfg, Init(cfg), schedule).value.task.outcome;
      && (outcome.NoBody? <==> Arrives(cfg) && HasNoBody(cfg))
      && (outcome.StreamedBody? <==> Arrives(cfg) && !HasNoBody(cfg) && !IsSmall(cfg))
      && (outcome.InlineBody? <==> Arrives(cfg) && !HasNoBody(cfg) && IsSmall(cfg) && !Breaks(cfg.body))
      && (outcome.RequestFailed? <==> !Arrives(cfg) || (!HasNoBody(cfg) && IsSmall(cfg) && Breaks(cfg.body)))
      && (outcome.InlineBody? ==> outcome.bytes == BytesOf(cfg.body))
  {
    OutcomeIsPrescribed(cfg, schedule);
    PrescribedSpelled(cfg);
  }

  // ----- Cancelling in time and too late -----

  predicate SameButToken(s: State, t: State) {
    s.task == t.task && s.body == t.body && !InFlight(s.task)
  }

  lemma StepIgnoresToken(cfg: Config, s: State, t: State, a: Action)
    requires SameButToken(s, t)
    ensures Step(cfg, s, a).Some? <==> Step(cfg, t, a).Some?
    ensures Step(cfg, s, a).Some? ==> SameButToken(Step(cfg, s, a).value, Step(cfg, t, a).value)
  {
  }

  lemma {:induction false} ExecIgnoresToken(cfg: Config, s: State, t: State, schedule: seq<Action>)
    requires SameButToken(s, t)
    ensures Exec(cfg, s, schedule).Some? <==> Exec(cfg, t, schedule).Some?
    ensures Exec(cfg, s, schedule).Some? ==>
      SameButToken(Exec(cfg, s, schedule).value, Exec(cfg, t, schedule).value)
    decreases |schedule|
  {
    if schedule != [] {
      StepIgnoresToken(cfg, s, t, schedule[0]);
      if Step(cfg, s, schedule[0]).Some? {
        ExecIgnoresToken(cfg, Step(cfg, s, schedule[0]).value, Step(cfg, t, schedule[0]).value, schedule[1..]);
      }
    }
  }

  lemma ExecCons(cfg: Config, s: State, a: Action, rest: seq<Action>)
    ensures Exec(cfg, s, [a] + rest)
         == match Step(cfg, s, a) case Some(next) => Exec(cfg, next, rest) case None => None
  {
  }

  /**
   Once the request task has returned, a cancellation makes no difference: every continuation runs the
   same with and without it, with the same promise, readers and events.
   */
  lemma LateCancelIsHarmless(cfg: Config, s: State, rest: seq<Action>)
    requires !InFlight(s.task)
    ensures var with, without := Exec(cfg, s, [CancelRequest] + rest), Exec(cfg, s, rest);
      && (with.Some? <==> without.Some?)
      && (with.Some? ==> with.value.task == without.value.task && with.value.body == without.value.body)
  {
    ExecCons(cfg, s, CancelRequest, rest);
    ExecIgnoresToken(cfg, Step(cfg, s, CancelRequest).value, s, rest);
  }

  lemma StepRegistration(cfg: Config, s: State, a: Action)
    requires Step(cfg, s, a).Some? && (s.registered ==> !s.task.Settled?)
    ensures var next := Step(cfg, s, a).value;
      && (next.registered <==> s.registered && a != CancelRequest && !next.task.Settled?)
      && (next.cancelled <==> s.cancelled || (s.registered && a == CancelRequest))
      && (s.task.Settled? ==> next.task.Settled?)
  {
  }

  lemma {:induction false} ExecRegistration(cfg: Config, s: State, schedule: seq<Action>)
    requires Exec(cfg, s, schedule).Some? && (s.registered ==> !s.task.Settled?)
    ensures var end := Exec(cfg, s, schedule).value;
      && (end.registered <==> s.registered && CancelRequest !in schedule && !end.task.Settled?)
      && (s.registered && CancelRequest in schedule && !end.task.Settled? ==> end.cancelled)
      && (s.cancelled ==> end.cancelled) && (s.task.Settled? ==> end.task.Settled?)
    decreases |schedule|
  {
    if schedule != [] {
      StepRegistration(cfg, s, schedule[0]);
      ExecRegistration(cfg, Step(cfg, s, schedule[0]).value, schedule[1..]);
    }
  }

  /**
   Over every schedule, a request is in the cancellation registry exactly if it is cancellable, was not
   cancelled yet and has not settled; and a cancellation before it settled has set the token.
   */
  lemma RegisteredUntilSettled(cfg: Config, schedule: seq<Action>)
    requires Exec(cfg, Init(cfg), schedule).Some?
    ensures var s := Exec(cfg, Init(cfg), schedule).value;
      && (s.registered <==> cfg.cancellable && CancelRequest !in schedule && !s.task.Settled?)
      && (cfg.cancellable && CancelRequest in schedule && !s.task.Settled? ==> s.cancelled)
  {
    ExecRegistration(cfg, Init(cfg), schedule);
  }

  lemma {:induction false} ExecConcat(cfg: Config, s: State, first: seq<Action>, second: seq<Action>)
    requires Exec(cfg, s, first).Some?
    ensures Exec(cfg, s, first + second) == Exec(cfg, Exec(cfg, s, first).value, second)
    decreases |first|
  {
    if first == [] {
      assert first + second == second;
    } else {
      assert (first + second)[1..] == first[1..] + second;
      ExecConcat(cfg, Step(cfg, s, first[0]).value, first[1..], second);
    }
  }

  /**
   After every schedule that leaves a cancellable request in flight, whether cancelled already or not, a
   cancellation can make it fail at once: its promise settles with a failure, and with a listener the one
   event this adds is the error.
   */
  lemma CancelCanAbort(cfg: Config, schedule: seq<Action>)
    requires Exec(cfg, Init(cfg), schedule).Some? && cfg.cancellable
    requires InFlight(Exec(cfg, Init(cfg), schedule).value.task)
    ensures var s := Exec(cfg, Init(cfg), schedule).value;
      var end := Exec(cfg, Init(cfg), schedule + [CancelRequest, AbortBranch, SettlePromise]);
      && end.Some? && end.value.task == Settled(RequestFailed)
      && end.value.body.events == s.body.events + (if cfg.hasSink then [RequestEvents.Error] else [])
  {
    RegisteredUntilSettled(cfg, schedule);
    ExecConcat(cfg, Init(cfg), schedule, [CancelRequest, AbortBranch, SettlePromise]);
    AbortAtOnce(cfg, Exec(cfg, Init(cfg), schedule).value);
  }

  lemma AbortAtOnce(cfg: Config, s: State)
    requires InFlight(s.task) && (s.registered || s.cancelled)
    ensures var end := Exec(cfg, s, [CancelRequest, AbortBranch, SettlePromise]);
      && end.Some? && end.value.task == Settled(RequestFailed)
      && end.value.body.events == s.body.events + (if cfg.hasSink then [RequestEvents.Error] else [])
  {
    var cancelled := s.(registered := false, cancelled := true);
    if s.cancelled && !s.registered {
      assert cancelled == s;
    }
    var failed := Finish(cfg, cancelled, RequestFailed);
    assert [CancelRequest, AbortBranch, SettlePromise] == [CancelRequest] + ([AbortBranch] + ([SettlePromise] + []));
    ExecCons(cfg, s, CancelRequest, [AbortBranch] + ([SettlePromise] + []));
    ExecCons(cfg, cancelled, AbortBranch, [SettlePromise] + []);
    ExecCons(cfg, failed, SettlePromise, []);
  }
}
