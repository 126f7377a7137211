/** The events that the native layer reports for one request, and the order they may come in. */
module RequestEvents {
  import opened Wrappers

  datatype Event =
    | Start
    | Sent
    | Headers(contentLength: Option<nat>)
    | Progress(downloaded: nat, contentLength: Option<nat>)
    | Complete(downloaded: nat, contentLength: Option<nat>)
    | Done
    | Error

  /** How far an event sequence has come; `Broken` is reached by any event out of order. */
  datatype Phase =
    | Fresh
    | Started
    | AwaitingHeaders
    | HeadersSeen
    | InBody(downloaded: nat)
    | BodyDone
    | Finished
    | Failed
    | Broken

  /** Start, sent, headers, growing progress, then complete and done, or done alone, or an error. */
  function Advance(phase: Phase, event: Event): Phase {
    match (phase, event)
    case (Fresh, Start) => Started
    case (Started, Sent) => AwaitingHeaders
    case (AwaitingHeaders, Headers(_)) => HeadersSeen
    case (HeadersSeen, Progress(d, _)) => InBody(d)
    case (HeadersSeen, Complete(d, _)) => if d == 0 then BodyDone else Broken
    case (HeadersSeen, Done) => Finished
    case (InBody(d), Progress(e, _)) => if d <= e then InBody(e) else Broken
    case (InBody(d), Complete(e, _)) => if d == e then BodyDone else Broken
    case (BodyDone, Done) => Finished
    case (Fresh, Error) => Failed
    case (Started, Error) => Failed
    case (AwaitingHeaders, Error) => Failed
    case (HeadersSeen, Error) => Failed
    case (InBody(_), Error) => Failed
    case _ => Broken
  }

  function PhaseAfter(events: seq<Event>): Phase
    decreases |events|
  {
    if events == [] then Fresh
    else Advance(PhaseAfter(events[..|events| - 1]), events[|events| - 1])
  }

  predicate WellOrdered(events: seq<Event>) {
    PhaseAfter(events) != Broken
  }

  predicate Terminal(event: Event) {
    event.Done? || event.Error?
  }

  lemma PhaseAfterSnoc(events: seq<Event>, event: Event)
    ensures PhaseAfter(events + [event]) == Advance(PhaseAfter(events), event)
  {
  }

  /** Every prefix of a well-ordered sequence is well ordered. */
  lemma {:induction false} PrefixIsWellOrdered(events: seq<Event>, n: nat)
    requires WellOrdered(events) && n <= |events|
    ensures WellOrdered(events[..n])
    decreases |events|
  {
    if n < |events| {
      PrefixIsWellOrdered(events[..|events| - 1], n);
      assert events[..|events| - 1][..n] == events[..n];
    } else {
      assert events[..n] == events;
    }
  }

  /** In a well-ordered sequence nothing follows a terminal event, so done and error exclude each other. */
  lemma TerminalIsLast(events: seq<Event>, i: nat)
    requires WellOrdered(events) && i < |events| && Terminal(events[i])
    ensures i == |events| - 1
  {
    PrefixIsWellOrdered(events, i + 1);
    assert events[..i + 1] == events[..i] + [events[i]];
    PhaseAfterSnoc(events[..i], events[i]);
    if i + 1 < |events| {
      PrefixIsWellOrdered(events, i + 2);
      assert events[..i + 2] == events[..i + 1] + [events[i + 1]];
      PhaseAfterSnoc(events[..i + 1], events[i + 1]);
    }
  }

  lemma TerminalsAreLast(events: seq<Event>)
    requires WellOrdered(events)
    ensures forall i :: 0 <= i < |events| && Terminal(events[i]) ==> i == |events| - 1
  {
    forall i | 0 <= i < |events| && Terminal(events[i]) ensures i == |events| - 1 {
      TerminalIsLast(events, i);
    }
  }

  // ----- The order, event by event -----

  predicate MayFollow(event: Event, next: Event) {
    match event
    case Start => next.Sent? || next.Error?
    case Sent => next.Headers? || next.Error?
    case Headers(_) => next.Progress? || (next.Complete? && next.downloaded == 0) || next.Done? || next.Error?
    case Progress(d, _) =>
      (next.Progress? && d <= next.downloaded) || (next.Complete? && next.downloaded == d) || next.Error?
    case Complete(_, _) => next.Done?
    case Done => false
    case Error => false
  }

  predicate InOrder(events: seq<Event>) {
    && (events != [] ==> events[0].Start? || events[0].Error?)
    && (forall i :: 0 <= i < |events| - 1 ==> MayFollow(events[i], events[i + 1]))
  }

  /** In a well-ordered sequence the last event alone says how far it has come. */
  function PhaseOf(event: Event): Phase {
    match event
    case Start => Started
    case Sent => AwaitingHeaders
    case Headers(_) => HeadersSeen
    case Progress(d, _) => InBody(d)
    case Complete(_, _) => BodyDone
    case Done => Finished
    case Error => Failed
  }

  lemma AdvanceFollows(event: Event, next: Event)
    ensures Advance(PhaseOf(event), next) == if MayFollow(event, next) then PhaseOf(next) else Broken
  {
  }

  /** The fixed order is this: it starts with a start or an error, and each event may follow the one before. */
  lemma {:induction false} WellOrderedSpelled(events: seq<Event>)
    ensures WellOrdered(events) <==> InOrder(events)
    ensures WellOrdered(events) && events != [] ==> PhaseAfter(events) == PhaseOf(events[|events| - 1])
    decreases |events|
  {
    if events != [] {
      var n := |events| - 1;
      WellOrderedSpelled(events[..n]);
      OrderSnoc(events);
      if n > 0 {
        AdvanceFollows(events[n - 1], events[n]);
      }
    }
  }

  lemma OrderSnoc(events: seq<Event>)
    requires events != []
    ensures var n := |events| - 1;
      InOrder(events) <==>
        InOrder(events[..n]) && if n == 0 then events[0].Start? || events[0].Error?
                                else MayFollow(events[n - 1], events[n])
  {
    var before := events[..|events| - 1];
    assert forall i :: 0 <= i < |before| ==> before[i] == events[i];
  }
}
