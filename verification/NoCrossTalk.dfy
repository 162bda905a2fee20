/** What the correlation protocol guarantees over whole runs. */
module NoCrossTalk {
  import opened Bytes
  import opened Execute
  import opened Correlation

  // ---- The rest of the invariant ----

  lemma IdAtSucc(n: nat)
    ensures (IdAt(n) + 1) % U32_SPAN == IdAt(n + 1)
  {}

  lemma TakeIdKeepsCounters(s: State, r: nat)
    requires Counters(s) && Enabled(s, TakeId(r))
    ensures Counters(Apply(s, TakeId(r)))
  {
    var s', n := Apply(s, TakeId(r)), |s.uses|;
    IdAtSucc(s.conns[s.requests[r].phase.conn].issued);
    forall t | 0 <= t < |s'.uses| && s'.uses[t].conn in s'.conns
      ensures s'.uses[t].issue < s'.conns[s'.uses[t].conn].issued && s'.uses[t].id == IdAt(s'.uses[t].issue)
    {
      assert t < n ==> s'.uses[t] == s.uses[t];
    }
  }

  lemma WireKept(s: State, s': State, t: nat)
    requires t < |s.uses| <= |s'.uses| && WireOk(s, t)
    requires s.uses[t].req in s'.requests &&
             s'.requests[s.uses[t].req].original == s.requests[s.uses[t].req].original
    requires s'.uses[t] == s.uses[t].(stage := s'.uses[t].stage)
    ensures WireOk(s', t)
  {}

  lemma StepKeepsOriginals(s: State, step: Step, r: nat)
    requires Enabled(s, step) && r in s.requests
    ensures r in Apply(s, step).requests && Apply(s, step).requests[r].original == s.requests[r].original
  {}

  /** A step leaves every use as it is but for its stage, unless the node answers it. */
  lemma StepKeepsUses(s: State, step: Step, t: nat)
    requires Enabled(s, step) && t < |s.uses|
    ensures t < |Apply(s, step).uses|
    ensures step == NodeAnswers(t, if step.NodeAnswers? then step.bytes else []) ||
            Apply(s, step).uses[t] == s.uses[t].(stage := Apply(s, step).uses[t].stage)
  {}

  lemma StepKeepsIssued(s: State, step: Step, c: nat)
    requires Enabled(s, step) && !step.TakeId? && c in Apply(s, step).conns
    ensures if c in s.conns then
              Apply(s, step).conns[c].nextId == s.conns[c].nextId && Apply(s, step).conns[c].issued == s.conns[c].issued
            else Apply(s, step).conns[c].nextId == 1 && Apply(s, step).conns[c].issued == 0
  {}

  lemma StepKeepsCounters(s: State, step: Step)
    requires Core(s) && Counters(s) && Enabled(s, step)
    ensures Counters(Apply(s, step))
  {
    if step.TakeId? {
      TakeIdKeepsCounters(s, step.r);
    } else {
      var s' := Apply(s, step);
      forall c | c in s'.conns ensures s'.conns[c].nextId == IdAt(s'.conns[c].issued) {
        StepKeepsIssued(s, step, c);
      }
      forall t | 0 <= t < |s'.uses| && s'.uses[t].conn in s'.conns
        ensures s'.uses[t].issue < s'.conns[s'.uses[t].conn].issued && s'.uses[t].id == IdAt(s'.uses[t].issue)
      {
        assert UseOk(s, t);
        StepKeepsUses(s, step, t);
        StepKeepsIssued(s, step, s.uses[t].conn);
      }
    }
  }

  lemma StepKeepsWire(s: State, step: Step)
    requires Core(s) && Wire(s) && Enabled(s, step)
    ensures Wire(Apply(s, step))
  {
    var s' := Apply(s, step);
    forall t | 0 <= t < |s'.uses| ensures WireOk(s', t) {
      if t < |s.uses| {
        assert WireOk(s, t);
        StepKeepsOriginals(s, step, s.uses[t].req);
        StepKeepsUses(s, step, t);
        if s'.uses[t] == s.uses[t].(stage := s'.uses[t].stage) {
          WireKept(s, s', t);
        } else {
          WithIdLaws(s.requests[s.uses[t].req].original, s.uses[t].id);
        }
      }
    }
  }

  /** What was delivered stays delivered. */
  lemma StepKeepsDelivered(s: State, step: Step, t: nat)
    requires Core(s) && Wire(s) && Enabled(s, step) && t in s.delivered
    ensures t in Apply(s, step).delivered && Apply(s, step).delivered[t] == s.delivered[t]
  {
    match step
    case ReaderGets(k) =>
      assert WireOk(s, k);
      ReaderFindsItsWaiter(s, k);
    case CleanUp(c, threshold) =>
      assert ConnOk(s, c);
      CleanUpAnswers(s, c, threshold, map k | k in ExpiredTickets(s.conns[c].demux, threshold) :: []);
    case _ =>
  }

  lemma SuccessStays(s: State, step: Step, r: nat)
    requires Enabled(s, step) && Succeeded(Apply(s, step), r) && step != Receive(r)
    ensures Succeeded(s, r) && Apply(s, step).requests[r] == s.requests[r]
  {}

  lemma DeliveryStays(s: State, s': State, r: nat, t: nat)
    requires Succeeded(s, r) && Succeeded(s', r) && Delivers(s, r, t) && s'.requests[r] == s.requests[r]
    requires t in s'.delivered && s'.delivered[t] == s.delivered[t]
    ensures Delivers(s', r, t)
  {}

  lemma ReceiveDelivers(s: State, r: nat)
    requires Enabled(s, Receive(r)) && RequestOk(s, r)
    ensures Delivers(Apply(s, Receive(r)), r, s.requests[r].phase.ticket)
  {}

  lemma SuccessIsDelivered(s: State, step: Step, r: nat)
    requires Inv(s) && Enabled(s, step) && Succeeded(Apply(s, step), r)
    ensures exists t :: Delivers(Apply(s, step), r, t)
  {
    if step == Receive(r) {
      ReceiveDelivers(s, r);
    } else {
      SuccessStays(s, step, r);
      var t :| Delivers(s, r, t);
      StepKeepsDelivered(s, step, t);
      DeliveryStays(s, Apply(s, step), r, t);
    }
  }

  lemma StepKeepsResults(s: State, step: Step)
    requires Inv(s) && Enabled(s, step)
    ensures Results(Apply(s, step))
  {
    forall r | Succeeded(Apply(s, step), r) ensures exists t :: Delivers(Apply(s, step), r, t) {
      SuccessIsDelivered(s, step, r);
    }
  }

  lemma StepKeepsInv(s: State, step: Step)
    requires Inv(s) && Enabled(s, step) && (step.TakeId? ==> NoReissue(s, step.r))
    ensures Inv(Apply(s, step))
  {
    StepKeepsCore(s, step);
    StepKeepsCounters(s, step);
    StepKeepsWire(s, step);
    StepKeepsResults(s, step);
  }

  // ---- Runs ----

  /** States linked by steps, from the empty bridge on, in any interleaving. */
  ghost predicate Run(states: seq<State>, steps: seq<Step>) {
    && |states| == |steps| + 1 && states[0] == INIT
    && forall i {:trigger steps[i]} :: 0 <= i < |steps| ==>
         Enabled(states[i], steps[i]) && states[i + 1] == Apply(states[i], steps[i])
  }

  /** A run in which no id is handed out again while an earlier use of it is live. */
  ghost predicate CarefulRun(states: seq<State>, steps: seq<Step>) {
    && Run(states, steps)
    && forall i {:trigger steps[i]} :: 0 <= i < |steps| && steps[i].TakeId? ==> NoReissue(states[i], steps[i].r)
  }

  lemma {:induction false} CarefulRunsKeepInv(states: seq<State>, steps: seq<Step>, n: nat)
    requires CarefulRun(states, steps) && n < |states|
    ensures Inv(states[n])
  {
    if n > 0 {
      CarefulRunsKeepInv(states, steps, n - 1);
      StepKeepsInv(states[n - 1], steps[n - 1]);
    }
  }

  /** Fewer than `w` ids have been handed out on the connection since any live use of it. */
  ghost predicate InWindow(s: State, r: nat, w: nat)
    requires Enabled(s, TakeId(r))
  {
    var c := s.requests[r].phase.conn;
    forall t :: 0 <= t < |s.uses| && s.uses[t].conn == c && Live(s, t) ==> s.conns[c].issued - s.uses[t].issue < w
  }

  /** A run that hands out ids only inside the window. */
  ghost predicate WindowRun(states: seq<State>, steps: seq<Step>, w: nat) {
    && Run(states, steps)
    && forall i {:trigger steps[i]} :: 0 <= i < |steps| && steps[i].TakeId? ==> InWindow(states[i], steps[i].r, w)
  }

  /** The counter may wrap: in a window of 2^32 the id about to be taken is in no live use. */
  lemma WindowRulesOutReissue(s: State, r: nat, w: nat)
    requires Inv(s) && Enabled(s, TakeId(r)) && InWindow(s, r, w) && w <= U32_SPAN
    ensures NoReissue(s, r)
  {
    var c := s.requests[r].phase.conn;
    forall t | 0 <= t < |s.uses| && s.uses[t].conn == c && Live(s, t)
      ensures s.uses[t].id != s.conns[c].nextId
    {
      IdsInWindowDiffer(s.uses[t].issue, s.conns[c].issued);
    }
  }

  lemma {:induction false} WindowRunsKeepInv(states: seq<State>, steps: seq<Step>, w: nat, n: nat)
    requires WindowRun(states, steps, w) && w <= U32_SPAN && n < |states|
    ensures Inv(states[n])
  {
    if n > 0 {
      WindowRunsKeepInv(states, steps, w, n - 1);
      var s, step := states[n - 1], steps[n - 1];
      if step.TakeId? { WindowRulesOutReissue(s, step.r, w); }
      StepKeepsInv(s, step);
    }
  }

  /** Runs inside a window of 2^32 never reissue a live id. */
  lemma WindowRunsAreCareful(states: seq<State>, steps: seq<Step>, w: nat)
    requires WindowRun(states, steps, w) && w <= U32_SPAN
    ensures CarefulRun(states, steps)
  {
    forall i | 0 <= i < |steps| && steps[i].TakeId? ensures NoReissue(states[i], steps[i].r) {
      WindowRunsKeepInv(states, steps, w, i);
      WindowRulesOutReissue(states[i], steps[i].r, w);
    }
  }

  lemma IdsInWindowDiffer(i: nat, j: nat)
    requires i < j < i + U32_SPAN
    ensures IdAt(i) != IdAt(j)
  {
    var q, p := (1 + i) / U32_SPAN, (1 + j) / U32_SPAN;
    assert j - i == (p - q) * U32_SPAN + (IdAt(j) - IdAt(i));
    assert p == q || p == q + 1;
  }

  /** A response that answers ticket `t` of request `r`, as the request returns it. */
  ghost predicate IsOwnAnswer(s: State, r: nat, t: nat, reply: seq<byte>)
    requires r in s.requests && |s.requests[r].original| >= 9
  {
    var original := s.requests[r].original;
    && t in s.requests[r].tickets && t < |s.uses| && s.uses[t].req == r
    && SameOutsideId(s.uses[t].frame, original)
    && (reply == [] ||
        (s.uses[t].answer.Some? && |s.uses[t].answer.value| >= 12 &&
         SameOutsideId(reply, s.uses[t].answer.value) && reply[1..5] == LE32(IdOf(original))))
  }

  /**
   * No cross-talk: in every careful run, what a request returns is empty (its connection was cleaned up) or is the
   * node's answer to a frame that this very request sent, with the client's id put back and nothing else changed.
   */
  lemma NoCrossTalkInRuns(states: seq<State>, steps: seq<Step>, n: nat, r: nat)
    requires CarefulRun(states, steps) && n < |states|
    requires Succeeded(states[n], r)
    ensures |states[n].requests[r].original| >= 9
    ensures exists t :: IsOwnAnswer(states[n], r, t, states[n].requests[r].phase.result.reply)
  {
    CarefulRunsKeepInv(states, steps, n);
    var s := states[n];
    assert RequestOk(s, r);
    var t :| Delivers(s, r, t);
    assert WireOk(s, t);
    RestoreGivesClientId(s.delivered[t], IdOf(s.requests[r].original));
    assert IsOwnAnswer(s, r, t, s.requests[r].phase.result.reply);
  }

  /** The request succeeded with a reply that answers none of its own frames. */
  ghost predicate MixedUp(s: State, r: nat) {
    && Succeeded(s, r)
    && !(|s.requests[r].original| >= 9 && exists t :: IsOwnAnswer(s, r, t, s.requests[r].phase.result.reply))
  }

  // ---- Attempts, in every run ----

  ghost predicate OwnFrame(s: State, r: nat, t: nat)
    requires r in s.requests
  {
    t < |s.uses| && SameOutsideId(s.uses[t].frame, s.requests[r].original)
  }

  /** The attempts and the ids taken are in step, and every frame is the client's outside bytes 1..5. */
  ghost predicate Counted(s: State, r: nat)
    requires r in s.requests
  {
    var q := s.requests[r];
    && (if q.phase.Done? then |q.tickets| <= MAX_ATTEMPTS
        else q.attempts < MAX_ATTEMPTS &&
             |q.tickets| <= q.attempts + if q.phase.Choosing? || q.phase.Chosen? then 0 else 1)
    && forall t :: t in q.tickets ==> OwnFrame(s, r, t)
  }

  lemma FramesKept(s: State, step: Step, t: nat)
    requires Enabled(s, step) && t < |s.uses|
    ensures t < |Apply(s, step).uses| && Apply(s, step).uses[t].frame == s.uses[t].frame
  {}

  lemma TicketsKept(s: State, step: Step, r: nat)
    requires Enabled(s, step) && r in s.requests && Counted(s, r)
    ensures r in Apply(s, step).requests
    ensures forall t :: t in s.requests[r].tickets ==> OwnFrame(Apply(s, step), r, t)
  {
    StepKeepsOriginals(s, step, r);
    forall t | t in s.requests[r].tickets ensures OwnFrame(Apply(s, step), r, t) {
      assert OwnFrame(s, r, t);
      FramesKept(s, step, t);
    }
  }

  lemma TakeIdKeepsCounted(s: State, r: nat)
    requires Enabled(s, TakeId(r)) && Counted(s, r)
    ensures Counted(Apply(s, TakeId(r)), r)
  {
    TicketsKept(s, TakeId(r), r);
    var s' := Apply(s, TakeId(r));
    assert s'.requests[r].tickets == s.requests[r].tickets + [|s.uses|];
    assert OwnFrame(s', r, |s.uses|);
  }

  lemma StepKeepsCounted(s: State, step: Step, r: nat)
    requires Enabled(s, step) && r in Apply(s, step).requests && (r in s.requests ==> Counted(s, r))
    ensures Counted(Apply(s, step), r)
  {
    if step == TakeId(r) {
      TakeIdKeepsCounted(s, r);
    } else if r in s.requests {
      TicketsKept(s, step, r);
      PhaseKeepsCount(s, step, r);
    }
  }

  lemma PhaseKeepsCount(s: State, step: Step, r: nat)
    requires Enabled(s, step) && r in s.requests && Counted(s, r) && step != TakeId(r)
    ensures r in Apply(s, step).requests && Apply(s, step).requests[r].tickets == s.requests[r].tickets
    ensures var q := Apply(s, step).requests[r];
            if q.phase.Done? then |q.tickets| <= MAX_ATTEMPTS
            else q.attempts < MAX_ATTEMPTS &&
                 |q.tickets| <= q.attempts + if q.phase.Choosing? || q.phase.Chosen? then 0 else 1
  {}

  lemma {:induction false} RunsKeepCounted(states: seq<State>, steps: seq<Step>, n: nat, r: nat)
    requires Run(states, steps) && n < |states| && r in states[n].requests
    ensures Counted(states[n], r)
  {
    if n > 0 {
      if r in states[n - 1].requests { RunsKeepCounted(states, steps, n - 1, r); }
      StepKeepsCounted(states[n - 1], steps[n - 1], r);
    }
  }

  /** In every run, each request takes at most three ids and sends only the client's frame outside bytes 1..5. */
  lemma AtMostThreeFramesPerRequest(states: seq<State>, steps: seq<Step>, n: nat, r: nat)
    requires Run(states, steps) && n < |states| && r in states[n].requests
    ensures |states[n].requests[r].tickets| <= MAX_ATTEMPTS
    ensures forall t :: t in states[n].requests[r].tickets ==>
              t < |states[n].uses| && SameOutsideId(states[n].uses[t].frame, states[n].requests[r].original)
  {
    RunsKeepCounted(states, steps, n, r);
    assert forall t :: t in states[n].requests[r].tickets ==> OwnFrame(states[n], r, t);
  }

  // ---- The reader and the waiters ----

  /** The reader never meets an unknown id on a connection that is not already closed. */
  lemma ReaderNeverTrips(states: seq<State>, steps: seq<Step>, n: nat, t: nat)
    requires CarefulRun(states, steps) && n < |states| && t < |states[n].uses| && states[n].uses[t].stage == Replied
    ensures var s := states[n];
            && s.uses[t].conn in s.conns && s.uses[t].answer.Some? && |s.uses[t].answer.value| >= 12
            && (!s.conns[s.uses[t].conn].closed ==>
                  IdOf(s.uses[t].answer.value) in s.conns[s.uses[t].conn].demux &&
                  s.conns[s.uses[t].conn].demux[IdOf(s.uses[t].answer.value)].ticket == t)
  {
    CarefulRunsKeepInv(states, steps, n);
    assert WireOk(states[n], t);
    ReaderFindsItsWaiter(states[n], t);
  }

  /** A waiting request is never left without a channel: its waiter is stored or its response is there. */
  lemma WaitersAreNeverDropped(states: seq<State>, steps: seq<Step>, n: nat, r: nat)
    requires CarefulRun(states, steps) && n < |states|
    ensures !Enabled(states[n], ChannelDrops(r))
  {
    CarefulRunsKeepInv(states, steps, n);
    assert r in states[n].requests ==> RequestOk(states[n], r);
  }
}
