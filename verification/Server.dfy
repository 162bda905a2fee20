/** Counting the router connections: the accept loop, the handlers it starts and the task that counts them out. */
module Server {
  const USIZE_SPAN: nat := 0x1_0000_0000_0000_0000

  /** What can happen next, in any interleaving of the accept loop, the handlers and the counting task. */
  datatype Event =
    | Connection              // the accept loop gets a connection and reads the counter
    | Admit                   // it then counts the connection in and starts a handler
    | HandlerEnds(h: nat)     // a handler sends its one close message and returns
    | CloseReceived           // the counting task takes a close message
    | ListenerStops
    | CounterStops

  /** The counter and what it counts, without machine arithmetic. */
  datatype Counts = Counts(active: int, running: set<nat>, queued: nat, admitting: bool, listening: bool, counting: bool,
                           started: nat, dropped: nat, received: nat)

  const START := Counts(0, {}, 0, false, true, true, 0, 0, 0)

  /** Whether the event can happen now. */
  predicate Applies(s: Counts, e: Event) {
    match e
    case Connection => s.listening && !s.admitting
    case Admit => s.admitting
    case HandlerEnds(h) => h in s.running
    case CloseReceived => s.counting && s.queued > 0
    case ListenerStops => s.listening && !s.admitting
    case CounterStops => s.counting
  }

  function Next(s: Counts, max: nat, e: Event): Counts {
    if !Applies(s, e) then s
    else
      match e
      case Connection => if s.active >= max then s.(dropped := s.dropped + 1) else s.(admitting := true)
      case Admit =>
        s.(admitting := false, active := s.active + 1, running := s.running + {s.started}, started := s.started + 1)
      case HandlerEnds(h) => s.(running := s.running - {h}, queued := s.queued + 1)
      case CloseReceived => s.(active := s.active - 1, queued := s.queued - 1, received := s.received + 1)
      case ListenerStops => s.(listening := false)
      case CounterStops => s.(counting := false)
  }

  function After(s: Counts, max: nat, events: seq<Event>): Counts {
    if events == [] then s else Next(After(s, max, events[..|events| - 1]), max, events[|events| - 1])
  }

  /** The events that could happen when their turn came. */
  function Took(s: Counts, max: nat, events: seq<Event>): seq<Event> {
    if events == [] then []
    else
      var n := |events| - 1;
      Took(s, max, events[..n]) + if Applies(After(s, max, events[..n]), events[n]) then [events[n]] else []
  }

  function Number(events: seq<Event>, counted: Event -> bool): nat {
    if events == [] then 0
    else Number(events[..|events| - 1], counted) + if counted(events[|events| - 1]) then 1 else 0
  }

  predicate IsAdmit(e: Event) { e.Admit? }
  predicate IsReceipt(e: Event) { e.CloseReceived? }
  predicate IsConnection(e: Event) { e.Connection? }
  predicate IsEnd(e: Event) { e.HandlerEnds? }

  /** The counter against the events that happened. */
  ghost predicate AddsUp(s: Counts, max: nat, took: seq<Event>) {
    && s.started == Number(took, IsAdmit)
    && s.received == Number(took, IsReceipt)
    && s.dropped + s.started + (if s.admitting then 1 else 0) == Number(took, IsConnection)
    && |s.running| + Number(took, IsEnd) == s.started
    && s.active == |s.running| + s.queued == s.started - s.received <= max
    && (s.admitting ==> s.active < max) && forall h :: h in s.running ==> h < s.started
  }

  lemma NumberNext(took: seq<Event>, e: Event, counted: Event -> bool)
    ensures Number(took + [e], counted) == Number(took, counted) + if counted(e) then 1 else 0
  {
    assert (took + [e])[..|took|] == took;
  }

  lemma NextAddsUp(s: Counts, max: nat, took: seq<Event>, e: Event)
    requires AddsUp(s, max, took) && Applies(s, e)
    ensures AddsUp(Next(s, max, e), max, took + [e])
  {
    NumberNext(took, e, IsAdmit);
    NumberNext(took, e, IsReceipt);
    NumberNext(took, e, IsConnection);
    NumberNext(took, e, IsEnd);
  }

  /**
   * Over every list of events: handlers started are the admissions, closes received the receipts, every connection
   * taken up was dropped, started or is about to be, every handler is running or has ended once, and the counter is the
   * running handlers plus the queued closes, within the limit.
   */
  lemma {:induction false} EventsAddUp(max: nat, events: seq<Event>)
    ensures AddsUp(After(START, max, events), max, Took(START, max, events))
  {
    if events != [] {
      var n := |events| - 1;
      EventsAddUp(max, events[..n]);
      var s, took := After(START, max, events[..n]), Took(START, max, events[..n]);
      if Applies(s, events[n]) {
        NextAddsUp(s, max, took, events[n]);
      } else {
        assert Took(START, max, events) == took;
      }
    }
  }

  class Counting {
    const max: nat
    var active: nat              // an atomic of machine width
    var running: set<nat>        // handlers started and not ended
    var queued: nat              // close messages sent and not received
    var admitting: bool          // the accept loop has found room
    var listening: bool
    var counting: bool
    var started: nat
    var dropped: nat
    var received: nat

    constructor (max: nat)
      requires max < USIZE_SPAN
      ensures Valid() && this.max == max && State() == START
    {
      this.max, active, running, queued, admitting, listening, counting := max, 0, {}, 0, false, true, true;
      started, dropped, received := 0, 0, 0;
    }

    function State(): Counts
      reads this
    {
      Counts(active, running, queued, admitting, listening, counting, started, dropped, received)
    }

    /** The counter is the running handlers plus the queued closes, within the limit, and each handler ends once. */
    ghost predicate Valid()
      reads this
    {
      && active == |running| + queued <= max < USIZE_SPAN
      && started == |running| + queued + received
      && (forall h :: h in running ==> h < started)
      && (admitting ==> listening && active < max)
    }

    /** A connection is dropped only while handlers and queued closes together make up the limit. */
    method OnConnection()
      requires Valid() && listening && !admitting
      modifies this`admitting, this`dropped
      ensures Valid() && admitting == (|running| + queued < max)
      ensures dropped == old(dropped) + if |running| + queued == max then 1 else 0
    {
      if active >= max {
        dropped := dropped + 1;
      } else {
        admitting := true;
      }
    }

    method OnAdmit()
      requires Valid() && admitting
      modifies this`active, this`running, this`admitting, this`started
      ensures Valid() && !admitting && started == old(started) + 1
      ensures running == old(running) + {old(started)} && old(started) !in old(running)
      ensures active == old(active) + 1
    {
      active := (active + 1) % USIZE_SPAN;
      running := running + {started};
      started := started + 1;
      admitting := false;
    }

    /** Every way out of a handler sends exactly one close message. */
    method OnHandlerEnds(h: nat)
      requires Valid() && h in running
      modifies this`running, this`queued
      ensures Valid() && running == old(running) - {h} && queued == old(queued) + 1
    {
      running := running - {h};
      queued := queued + 1;
    }

    /** Taking a close message never takes the counter below zero. */
    method OnClose()
      requires Valid() && counting && queued > 0
      modifies this`active, this`queued, this`received
      ensures Valid() && active == old(active) - 1 && queued == old(queued) - 1 && received == old(received) + 1
    {
      queued := queued - 1;
      active := (active + USIZE_SPAN - 1) % USIZE_SPAN;
      received := received + 1;
    }

    method Handle(e: Event)
      requires Valid()
      modifies this
      ensures Valid() && State() == Next(old(State()), max, e)
    {
      match e
      case Connection =>
        if listening && !admitting { OnConnection(); }
      case Admit =>
        if admitting { OnAdmit(); }
      case HandlerEnds(h) =>
        if h in running { OnHandlerEnds(h); }
      case CloseReceived =>
        if counting && queued > 0 { OnClose(); }
      case ListenerStops =>
        if listening && !admitting { listening := false; }
      case CounterStops =>
        counting := false;
    }

    /** Handles the events one after another; from the start, they add up. */
    method Run(events: seq<Event>)
      requires Valid()
      modifies this
      ensures Valid() && State() == After(old(State()), max, events)
      ensures old(State()) == START ==> AddsUp(State(), max, Took(START, max, events))
    {
      for i := 0 to |events|
        invariant Valid() && State() == After(old(State()), max, events[..i])
      {
        assert events[..i + 1][..i] == events[..i];
        Handle(events[i]);
      }
      assert events[..|events|] == events;
      EventsAddUp(max, events);
    }
  }
}
