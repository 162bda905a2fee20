/** The protocol carries out the attempt loop: what every request comes to is what its own attempts lead to. */
module Refinement {
  import opened Bytes
  import opened Execute
  import opened Correlation
  import opened NoCrossTalk

  // ---- The attempts of a request, read off the steps of a run ----

  /** The attempt of request `r` that the step ends, if it ends one. */
  ghost function AttemptEnded(s: State, step: Step, r: nat): Option<Attempt>
    requires Enabled(s, step)
  {
    match step
    case NoneToChoose(x) => if x == r then Some(NoConnection) else None
    case SendFails(x) => if x == r then Some(SendFailed(s.uses[s.requests[r].phase.ticket].id)) else None
    case ChannelDrops(x) => if x == r then Some(ChannelDropped(s.uses[s.requests[r].phase.ticket].id)) else None
    case Receive(x) =>
      if x == r && s.requests[r].phase.ticket < |s.uses| then
        Some(Answered(s.uses[s.requests[r].phase.ticket].id, s.delivered[s.requests[r].phase.ticket]))
      else None
    case _ => None
  }

  /** The attempts of request `r` that ended in the first `n` steps of a run. */
  ghost function Attempts(states: seq<State>, steps: seq<Step>, r: nat, n: nat): seq<Attempt>
    requires Run(states, steps) && n <= |steps|
  {
    if n == 0 then []
    else
      Attempts(states, steps, r, n - 1) +
        match AttemptEnded(states[n - 1], steps[n - 1], r) case None => [] case Some(a) => [a]
  }

  /** The attempts as a script for the attempt loop; what comes after them does not matter. */
  function Script(attempts: seq<Attempt>): nat -> Attempt {
    (k: nat) => if k < |attempts| then attempts[k] else NoConnection
  }

  ghost predicate NoneAnswered(attempts: seq<Attempt>) {
    forall i :: 0 <= i < |attempts| ==> !attempts[i].Answered?
  }

  // ---- What holds of a request and its attempts ----

  /** The request has a frame under way. */
  ghost predicate InFlight(q: Request) { q.phase.Taken? || q.phase.Stored? || q.phase.Waiting? }

  /** The request is where its attempts have led it. */
  ghost predicate Traced(q: Request, attempts: seq<Attempt>) {
    && Executable(q.original)
    && (InFlight(q) ==> q.tickets != [] && q.tickets[|q.tickets| - 1] == q.phase.ticket)
    && if q.phase.Done? then Finished(q, attempts)
       else |attempts| == q.attempts < MAX_ATTEMPTS && NoneAnswered(attempts)
  }

  /** The result is the first answer, under the client's id, or the failure of the third attempt. */
  ghost predicate Finished(q: Request, attempts: seq<Attempt>)
    requires q.phase.Done? && |q.original| >= 5
  {
    && 1 <= |attempts| <= MAX_ATTEMPTS && NoneAnswered(attempts[..|attempts| - 1])
    && var last := attempts[|attempts| - 1];
       if last.Answered? then q.phase.result == Ok(Restore(last.response, IdOf(q.original)))
       else |attempts| == MAX_ATTEMPTS && q.phase.result == Err(FailureOf(q.isWrite, last))
  }

  /** A step of the request that ends no attempt. */
  lemma TracedMoves(q: Request, q': Request, attempts: seq<Attempt>)
    requires Traced(q, attempts) && !q.phase.Done? && !q'.phase.Done?
    requires q'.original == q.original && q'.attempts == q.attempts
    requires InFlight(q') ==> q'.tickets != [] && q'.tickets[|q'.tickets| - 1] == q'.phase.ticket
    ensures Traced(q', attempts)
  {}

  lemma TracedFails(q: Request, q': Request, attempts: seq<Attempt>, a: Attempt)
    requires Traced(q, attempts) && !q.phase.Done? && !a.Answered?
    requires q' == q.(attempts := q.attempts + 1,
                      phase := if q.attempts + 1 >= 3 then Done(Err(FailureOf(q.isWrite, a))) else Choosing)
    ensures Traced(q', attempts + [a])
  {
    assert (attempts + [a])[..|attempts|] == attempts;
  }

  lemma TracedAnswered(q: Request, q': Request, attempts: seq<Attempt>, a: Attempt)
    requires Traced(q, attempts) && !q.phase.Done? && a.Answered?
    requires q' == q.(phase := Done(Ok(Restore(a.response, IdOf(q.original)))))
    ensures Traced(q', attempts + [a])
  {
    assert (attempts + [a])[..|attempts|] == attempts;
  }

  ghost predicate Ends(step: Step, r: nat) {
    step == NoneToChoose(r) || step == SendFails(r) || step == ChannelDrops(r) || step == Receive(r)
  }

  lemma EndingIsTraced(s: State, step: Step, r: nat, attempts: seq<Attempt>)
    requires Enabled(s, step) && Ends(step, r) && r in s.requests && Traced(s.requests[r], attempts) && Framed(s, r)
    ensures r in Apply(s, step).requests && Traced(Apply(s, step).requests[r], Next(s, step, r, attempts))
  {
    var q, q' := s.requests[r], Apply(s, step).requests[r];
    match step
    case NoneToChoose(_) => TracedFails(q, q', attempts, NoConnection);
    case SendFails(_) => TracedFails(q, q', attempts, SendFailed(s.uses[q.phase.ticket].id));
    case ChannelDrops(_) => TracedFails(q, q', attempts, ChannelDropped(s.uses[q.phase.ticket].id));
    case Receive(_) =>
      TracedAnswered(q, q', attempts, Answered(s.uses[q.phase.ticket].id, s.delivered[q.phase.ticket]));
  }

  lemma MovingIsTraced(s: State, step: Step, r: nat, attempts: seq<Attempt>)
    requires Enabled(s, step) && !Ends(step, r) && r in s.requests && Traced(s.requests[r], attempts)
    ensures r in Apply(s, step).requests && Traced(Apply(s, step).requests[r], attempts)
    ensures AttemptEnded(s, step, r).None?
  {
    var q, q' := s.requests[r], Apply(s, step).requests[r];
    if q' != q {
      TracedMoves(q, q', attempts);
    }
  }

  lemma StepKeepsTraced(s: State, step: Step, r: nat, attempts: seq<Attempt>)
    requires Enabled(s, step) && r in s.requests && Traced(s.requests[r], attempts) && Framed(s, r)
    ensures r in Apply(s, step).requests && Traced(Apply(s, step).requests[r], Next(s, step, r, attempts))
  {
    if Ends(step, r) {
      EndingIsTraced(s, step, r, attempts);
    } else {
      MovingIsTraced(s, step, r, attempts);
    }
  }

  ghost function Next(s: State, step: Step, r: nat, attempts: seq<Attempt>): seq<Attempt>
    requires Enabled(s, step)
  {
    match AttemptEnded(s, step, r) case None => attempts case Some(a) => attempts + [a]
  }

  // ---- The frames a request has sent ----

  /** Every frame of the request is the client's under the id of its ticket. */
  ghost predicate Framed(s: State, r: nat)
    requires r in s.requests
  {
    var q := s.requests[r];
    |q.original| >= 9 && forall t :: t in q.tickets ==> t < |s.uses| && s.uses[t].frame == WithId(q.original, s.uses[t].id)
  }

  ghost function FramesOf(s: State, tickets: seq<nat>): (frames: seq<seq<byte>>)
    ensures |frames| == |tickets|
    ensures forall i :: 0 <= i < |tickets| && tickets[i] < |s.uses| ==> frames[i] == s.uses[tickets[i]].frame
  {
    seq(|tickets|, i requires 0 <= i < |tickets| => if tickets[i] < |s.uses| then s.uses[tickets[i]].frame else [])
  }

  lemma SameFrames(s: State, s': State, tickets: seq<nat>)
    requires forall t :: t in tickets ==> t < |s.uses| && t < |s'.uses| && s'.uses[t].frame == s.uses[t].frame
    ensures FramesOf(s', tickets) == FramesOf(s, tickets)
  {
    forall i | 0 <= i < |tickets| ensures FramesOf(s', tickets)[i] == FramesOf(s, tickets)[i] {
      assert tickets[i] in tickets;
    }
  }

  lemma {:induction false} SameSent(frame: seq<byte>, f: nat -> Attempt, g: nat -> Attempt, n: nat)
    requires |frame| >= 5 && forall k :: 0 <= k < n ==> f(k) == g(k)
    ensures SentFrames(frame, f, n) == SentFrames(frame, g, n)
  {
    if n > 0 {
      SameSent(frame, f, g, n - 1);
    }
  }

  ghost function Sent(frame: seq<byte>, attempts: seq<Attempt>): seq<seq<byte>>
    requires |frame| >= 5
  {
    SentFrames(frame, Script(attempts), |attempts|)
  }

  lemma SentNext(frame: seq<byte>, attempts: seq<Attempt>, a: Attempt)
    requires |frame| >= 5
    ensures Sent(frame, attempts + [a]) == Sent(frame, attempts) + if a.NoConnection? then [] else [WithId(frame, a.id)]
  {
    SameSent(frame, Script(attempts), Script(attempts + [a]), |attempts|);
  }

  /** The frames taken up are those of the ended attempts and the one under way. */
  ghost predicate SentSoFar(s: State, r: nat, attempts: seq<Attempt>)
    requires r in s.requests && Framed(s, r)
  {
    var q := s.requests[r];
    && (InFlight(q) ==> q.phase.ticket in q.tickets)
    && FramesOf(s, q.tickets) ==
       Sent(q.original, attempts) + if InFlight(q) then [s.uses[q.phase.ticket].frame] else []
  }

  /** The step leaves the request's frames as they are. */
  lemma OldFramesStay(s: State, step: Step, r: nat)
    requires Enabled(s, step) && r in s.requests && Framed(s, r)
    ensures var s', tickets := Apply(s, step), s.requests[r].tickets;
            && r in s'.requests && s'.requests[r].original == s.requests[r].original
            && (forall t :: t in tickets ==> t < |s'.uses| && s'.uses[t].frame == WithId(s.requests[r].original, s'.uses[t].id))
            && FramesOf(s', tickets) == FramesOf(s, tickets)
            && (forall t :: t in tickets ==> s'.uses[t].frame == s.uses[t].frame)
  {
    var s', tickets := Apply(s, step), s.requests[r].tickets;
    StepKeepsOriginals(s, step, r);
    forall t | t in tickets ensures t < |s'.uses| && s'.uses[t].frame == s.uses[t].frame && s'.uses[t].id == s.uses[t].id {
      StepKeepsUses(s, step, t);
    }
    SameFrames(s, s', tickets);
  }

  lemma TakeIdSends(s: State, r: nat, attempts: seq<Attempt>)
    requires Enabled(s, TakeId(r)) && Framed(s, r) && SentSoFar(s, r, attempts)
    ensures Framed(Apply(s, TakeId(r)), r) && SentSoFar(Apply(s, TakeId(r)), r, attempts)
  {
    OldFramesStay(s, TakeId(r), r);
    var s', tickets, n := Apply(s, TakeId(r)), s.requests[r].tickets, |s.uses|;
    assert s'.requests[r].tickets == tickets + [n] && s'.requests[r].phase == Taken(n);
    assert s'.uses[n].frame == WithId(s.requests[r].original, s'.uses[n].id);
    assert FramesOf(s', tickets + [n]) == FramesOf(s', tickets) + [s'.uses[n].frame];
  }

  /** What the step does to the request, as far as its frames are concerned. */
  ghost predicate SameTickets(q: Request, q': Request, ended: Option<Attempt>) {
    && q'.tickets == q.tickets && q'.original == q.original
    && match ended
       case None => InFlight(q') == InFlight(q) && (InFlight(q) ==> q'.phase.ticket == q.phase.ticket)
       case Some(a) => !InFlight(q') && a.NoConnection? == !InFlight(q)
  }

  lemma StepKeepsTickets(s: State, step: Step, r: nat)
    requires Enabled(s, step) && r in s.requests && Framed(s, r) && step != TakeId(r)
    requires InFlight(s.requests[r]) ==> s.requests[r].phase.ticket in s.requests[r].tickets
    ensures r in Apply(s, step).requests
    ensures SameTickets(s.requests[r], Apply(s, step).requests[r], AttemptEnded(s, step, r))
    ensures var ended := AttemptEnded(s, step, r);
            ended.Some? && !ended.value.NoConnection? ==> ended.value.id == s.uses[s.requests[r].phase.ticket].id
  {}

  lemma StepKeepsSent(s: State, step: Step, r: nat, attempts: seq<Attempt>)
    requires Enabled(s, step) && r in s.requests && Framed(s, r) && SentSoFar(s, r, attempts) && step != TakeId(r)
    ensures r in Apply(s, step).requests && Framed(Apply(s, step), r)
    ensures SentSoFar(Apply(s, step), r, Next(s, step, r, attempts))
  {
    OldFramesStay(s, step, r);
    StepKeepsTickets(s, step, r);
    var ended := AttemptEnded(s, step, r);
    if ended.Some? {
      SentNext(s.requests[r].original, attempts, ended.value);
    }
  }

  // ---- Whole runs ----

  ghost predicate Trace(s: State, r: nat, attempts: seq<Attempt>) {
    if r in s.requests then Traced(s.requests[r], attempts) && Framed(s, r) && SentSoFar(s, r, attempts)
    else attempts == []
  }

  lemma ArrivalIsTraced(s: State, step: Step, r: nat)
    requires Enabled(s, step) && r !in s.requests
    ensures Trace(Apply(s, step), r, []) && AttemptEnded(s, step, r).None?
  {}

  lemma StepKeepsTrace(s: State, step: Step, r: nat, attempts: seq<Attempt>)
    requires Enabled(s, step) && Trace(s, r, attempts)
    ensures Trace(Apply(s, step), r, Next(s, step, r, attempts))
  {
    if r !in s.requests {
      ArrivalIsTraced(s, step, r);
    } else {
      StepKeepsOriginals(s, step, r);
      StepKeepsTraced(s, step, r, attempts);
      if step == TakeId(r) {
        TakeIdSends(s, r, attempts);
      } else {
        StepKeepsSent(s, step, r, attempts);
      }
    }
  }

  lemma NothingIsTraced(states: seq<State>, steps: seq<Step>, r: nat)
    requires Run(states, steps)
    ensures Trace(states[0], r, Attempts(states, steps, r, 0))
  {}

  lemma TraceNext(states: seq<State>, steps: seq<Step>, r: nat, n: nat)
    requires Run(states, steps) && n < |steps| && Trace(states[n], r, Attempts(states, steps, r, n))
    ensures Trace(states[n + 1], r, Attempts(states, steps, r, n + 1))
  {
    var attempts := Attempts(states, steps, r, n);
    StepKeepsTrace(states[n], steps[n], r, attempts);
    assert Attempts(states, steps, r, n + 1) == Next(states[n], steps[n], r, attempts);
  }

  lemma {:induction false} RunsAreTraced(states: seq<State>, steps: seq<Step>, r: nat, n: nat)
    requires Run(states, steps) && n <= |steps|
    ensures Trace(states[n], r, Attempts(states, steps, r, n))
  {
    if n == 0 {
      NothingIsTraced(states, steps, r);
    } else {
      RunsAreTraced(states, steps, r, n - 1);
      TraceNext(states, steps, r, n - 1);
    }
  }

  lemma FinishedIsExplained(q: Request, attempts: seq<Attempt>)
    requires q.phase.Done? && Executable(q.original) && Finished(q, attempts)
    ensures Explains(q.isWrite, q.original, Script(attempts), q.phase.result)
  {
    var n, script := |attempts|, Script(attempts);
    assert forall i :: 0 <= i < n - 1 ==> attempts[..n - 1][i] == attempts[i];
    if attempts[n - 1].Answered? {
      assert FirstAnswer(script, n - 1);
      RestoreReturns(attempts[n - 1].response, q.original);
    } else {
      assert NoAnswer(script);
    }
  }

  /** The request is finished as the attempt loop finishes it, and gives up only after three attempts. */
  ghost predicate RanTheLoop(s: State, r: nat, attempts: seq<Attempt>)
    requires r in s.requests && s.requests[r].phase.Done?
  {
    var q := s.requests[r];
    && 1 <= |attempts| <= MAX_ATTEMPTS && |q.original| >= 9
    && Explains(q.isWrite, q.original, Script(attempts), q.phase.result)
    && q.phase.result == ResultOf(q.isWrite, q.original, Script(attempts))
    && FramesOf(s, q.tickets) == SentFrames(q.original, Script(attempts), |attempts|)
    && (q.phase.result.Err? ==> |attempts| == MAX_ATTEMPTS && NoneAnswered(attempts))
  }

  lemma TraceFinished(s: State, r: nat, attempts: seq<Attempt>)
    requires r in s.requests && s.requests[r].phase.Done? && Trace(s, r, attempts)
    ensures RanTheLoop(s, r, attempts)
  {
    var q := s.requests[r];
    FinishedIsExplained(q, attempts);
    ResultExplained(q.isWrite, q.original, Script(attempts));
    ExplainedOnce(q.isWrite, q.original, Script(attempts), q.phase.result, ResultOf(q.isWrite, q.original, Script(attempts)));
    assert attempts == attempts[..|attempts| - 1] + [attempts[|attempts| - 1]];
  }

  /**
   * In every run, whatever the interleaving: a finished request has made at most three attempts, its result is what the
   * attempt loop makes of them, and the frames sent for it are those the loop sends.
   */
  lemma RequestsRunTheLoop(states: seq<State>, steps: seq<Step>, r: nat, n: nat)
    requires Run(states, steps) && n <= |steps| && r in states[n].requests && states[n].requests[r].phase.Done?
    ensures RanTheLoop(states[n], r, Attempts(states, steps, r, n))
  {
    RunsAreTraced(states, steps, r, n);
    TraceFinished(states[n], r, Attempts(states, steps, r, n));
  }

  /** A request that is not finished has failed attempts only, fewer than three. */
  lemma UnfinishedRequests(states: seq<State>, steps: seq<Step>, r: nat, n: nat)
    requires Run(states, steps) && n <= |steps| && r in states[n].requests && !states[n].requests[r].phase.Done?
    ensures var attempts := Attempts(states, steps, r, n);
            |attempts| == states[n].requests[r].attempts < MAX_ATTEMPTS && NoneAnswered(attempts)
  {
    RunsAreTraced(states, steps, r, n);
  }

  // ---- Which connections a request uses ----

  /** Every frame of a write is on a leader connection and every frame of a read on a follower connection. */
  ghost predicate Routed(s: State) {
    && (forall t :: 0 <= t < |s.uses| ==> RoutedUse(s, t))
    && (forall r :: r in s.requests && s.requests[r].phase.Chosen? ==> RoutedTo(s, r, s.requests[r].phase.conn))
  }

  ghost predicate RoutedTo(s: State, r: nat, c: nat) {
    r in s.requests && c in s.conns && s.conns[c].leader == s.requests[r].isWrite
  }

  ghost predicate RoutedUse(s: State, t: nat)
    requires t < |s.uses|
  {
    RoutedTo(s, s.uses[t].req, s.uses[t].conn)
  }

  lemma RouteStays(s: State, step: Step, r: nat, c: nat)
    requires Enabled(s, step) && RoutedTo(s, r, c)
    ensures RoutedTo(Apply(s, step), r, c)
  {}

  lemma StepKeepsRouted(s: State, step: Step)
    requires Enabled(s, step) && Routed(s)
    ensures Routed(Apply(s, step))
  {
    var s' := Apply(s, step);
    forall t | 0 <= t < |s'.uses| ensures RoutedUse(s', t) {
      if t < |s.uses| {
        assert RoutedUse(s, t);
        RouteStays(s, step, s.uses[t].req, s.uses[t].conn);
        StepKeepsUses(s, step, t);
      } else {
        RouteStays(s, step, step.r, s.requests[step.r].phase.conn);
      }
    }
    forall r | r in s'.requests && s'.requests[r].phase.Chosen? ensures RoutedTo(s', r, s'.requests[r].phase.conn) {
      if r in s.requests && s.requests[r].phase == s'.requests[r].phase {
        RouteStays(s, step, r, s.requests[r].phase.conn);
      }
    }
  }

  /** In every run, writes go out on leader connections and reads on follower connections. */
  lemma {:induction false} WritesGoToTheLeader(states: seq<State>, steps: seq<Step>, n: nat)
    requires Run(states, steps) && n < |states|
    ensures Routed(states[n])
  {
    if n > 0 {
      WritesGoToTheLeader(states, steps, n - 1);
      StepKeepsRouted(states[n - 1], steps[n - 1]);
    }
  }

  // ---- A request can always go through ----

  /** The steps lead from one state to the other. */
  ghost predicate Leads(s: State, steps: seq<Step>, s': State)
    decreases |steps|
  {
    if steps == [] then s == s' else Enabled(s, steps[0]) && Leads(Apply(s, steps[0]), steps[1..], s')
  }

  /** The request's frame is on its way to the node on connection `c`, with its waiter stored. */
  ghost predicate UnderWay(s: State, r: nat, c: nat, t: nat, id: u32) {
    && r in s.requests && s.requests[r].phase == Waiting(t) && |s.requests[r].original| >= 9
    && t < |s.uses| && s.uses[t].stage == OnWire && s.uses[t].conn == c && s.uses[t].id == id
    && s.uses[t].frame == WithId(s.requests[r].original, id)
    && c in s.conns && s.conns[c].reading && id in s.conns[c].demux && s.conns[c].demux[id].ticket == t
  }

  lemma GoesOut(s: State, r: nat, c: nat) returns (s': State)
    requires r in s.requests && s.requests[r].phase.Choosing? && |s.requests[r].original| >= 9
    requires c in s.conns && !s.conns[c].closed && s.conns[c].reading && s.conns[c].leader == s.requests[r].isWrite
    ensures Leads(s, [Choose(r, c), TakeId(r), Store(r), Send(r)], s')
    ensures UnderWay(s', r, c, |s.uses|, s.conns[c].nextId) && s'.requests[r].original == s.requests[r].original
  {
    var s1 := Apply(s, Choose(r, c));
    var s2 := Apply(s1, TakeId(r));
    var s3 := Apply(s2, Store(r));
    s' := Apply(s3, Send(r));
    var steps := [Choose(r, c), TakeId(r), Store(r), Send(r)];
    assert Leads(s', [], s');
    assert Leads(s3, [Send(r)], s') by { assert [Send(r)][1..] == []; }
    assert Leads(s2, [Store(r), Send(r)], s') by { assert [Store(r), Send(r)][1..] == [Send(r)]; }
    assert Leads(s1, steps[1..], s') by { assert steps[1..] == [TakeId(r), Store(r), Send(r)] && steps[1..][1..] == [Store(r), Send(r)]; }
  }

  /** Whatever the node answers under the id comes back to the request under the client's id. */
  lemma ComesBack(s: State, r: nat, c: nat, t: nat, id: u32, bytes: seq<byte>) returns (s': State)
    requires UnderWay(s, r, c, t, id) && |bytes| >= 12 && IdOf(bytes) == id
    ensures Leads(s, [NodeAnswers(t, bytes), ReaderGets(t), Receive(r)], s')
    ensures r in s'.requests && s'.requests[r].phase.Done? && s'.requests[r].phase.result.Ok?
    ensures ReturnedUnder(s'.requests[r].phase.result.reply, bytes, s.requests[r].original)
  {
    WithIdLaws(s.requests[r].original, id);
    var s1 := Apply(s, NodeAnswers(t, bytes));
    var s2 := Apply(s1, ReaderGets(t));
    s' := Apply(s2, Receive(r));
    RestoreReturns(bytes, s.requests[r].original);
    var steps := [NodeAnswers(t, bytes), ReaderGets(t), Receive(r)];
    assert Leads(s', [], s');
    assert Leads(s2, [Receive(r)], s') by { assert [Receive(r)][1..] == []; }
    assert Leads(s1, steps[1..], s') by { assert steps[1..] == [ReaderGets(t), Receive(r)] && steps[1..][1..] == [Receive(r)]; }
  }

  // ---- Closed connections ----

  /** A connection once closed stays closed, and closing it, the end of its reader and an unknown id all close it. */
  lemma ClosingIsFinal(s: State, step: Step, c: nat)
    requires Enabled(s, step) && c in s.conns
    ensures c in Apply(s, step).conns
    ensures Apply(s, step).conns[c].closed <==>
              || s.conns[c].closed || step == Close(c) || step == ReaderStops(c)
              || (step.ReaderGets? && s.uses[step.t].conn == c && IdOf(s.uses[step.t].answer.value) !in s.conns[c].demux)
  {}
}
