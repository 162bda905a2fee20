/** How large a window keeps replies apart: exactly 2^32 ids. */
module IdReuse {
  import opened Bytes
  import opened Execute
  import opened Correlation
  import opened NoCrossTalk

  const FRAME: seq<byte> := [0xFF, 0, 0, 0, 0, 0, 0, 0, 0]

  /** A run inside the window ends in this state. */
  ghost predicate Reachable(s: State, w: nat) {
    exists states: seq<State>, steps: seq<Step> :: WindowRun(states, steps, w) && states[|states| - 1] == s
  }

  lemma RunExtends(states: seq<State>, steps: seq<Step>, w: nat, step: Step, s': State)
    requires WindowRun(states, steps, w) && Enabled(states[|states| - 1], step) && s' == Apply(states[|states| - 1], step)
    requires step.TakeId? ==> InWindow(states[|states| - 1], step.r, w)
    ensures WindowRun(states + [s'], steps + [step], w)
  {
    var longer, more, n := states + [s'], steps + [step], |steps|;
    assert forall i :: 0 <= i <= n ==> longer[i] == states[i];
    assert longer[n + 1] == s' && more[n] == step;
    forall i | 0 <= i < |more|
      ensures Enabled(longer[i], more[i]) && longer[i + 1] == Apply(longer[i], more[i])
      ensures more[i].TakeId? ==> InWindow(longer[i], more[i].r, w)
    {
      if i < n {
        assert more[i] == steps[i];
      }
    }
  }

  lemma ReachStep(s: State, step: Step, w: nat) returns (s': State)
    requires Reachable(s, w) && Enabled(s, step) && (step.TakeId? ==> InWindow(s, step.r, w))
    ensures s' == Apply(s, step) && Reachable(s', w)
  {
    var states, steps :| WindowRun(states, steps, w) && states[|states| - 1] == s;
    s' := Apply(s, step);
    RunExtends(states, steps, w, step, s');
    assert (states + [s'])[|states + [s']| - 1] == s';
  }

  /** Request 0 waits under id 1 on connection 0, which has handed out `n` more ids; requests above `n` are new. */
  ghost predicate Pending(s: State, n: nat) {
    && 0 in s.conns && s.conns[0].issued == n + 1 && s.conns[0].nextId == IdAt(n + 1)
    && !s.conns[0].closed && s.conns[0].reading && !s.conns[0].leader
    && |s.uses| > 0 && s.uses[0] == Use(0, 0, 1, 0, WithId(FRAME, 1), OnWire, None)
    && (forall r :: r in s.requests ==> r <= n)
  }

  lemma Admit(s: State, r: nat, w: nat) returns (s': State)
    requires Reachable(s, w) && r !in s.requests && 0 in s.conns && !s.conns[0].closed && !s.conns[0].leader
    ensures Reachable(s', w) && s' == s.(requests := s.requests[r := Request(false, FRAME, 0, Chosen(0), [])])
  {
    s' := ReachStep(s, Arrive(r, false, FRAME), w);
    s' := ReachStep(s', Choose(r, 0), w);
  }

  /** A request that has taken an id on connection 0, as its ticket says. */
  lemma TakeOne(s: State, r: nat, w: nat) returns (s': State)
    requires Reachable(s, w) && r !in s.requests && 0 in s.conns && !s.conns[0].closed && !s.conns[0].leader && s.conns[0].issued < w
    ensures Reachable(s', w) && s'.requests.Keys == s.requests.Keys + {r}
    ensures s'.requests[r] == Request(false, FRAME, 0, Taken(|s.uses|), [|s.uses|])
    ensures |s'.uses| == |s.uses| + 1 && s'.uses[..|s.uses|] == s.uses
    ensures s'.uses[|s.uses|] == Use(r, 0, s.conns[0].nextId, s.conns[0].issued, WithId(FRAME, s.conns[0].nextId), Held, None)
    ensures s'.conns == s.conns[0 := s.conns[0].(nextId := (s.conns[0].nextId + 1) % U32_SPAN, issued := s.conns[0].issued + 1)]
  {
    s' := Admit(s, r, w);
    s' := ReachStep(s', TakeId(r), w);
  }

  lemma FirstPending(w: nat) returns (s: State)
    requires w > 0
    ensures Reachable(s, w) && Pending(s, 0)
  {
    assert WindowRun([INIT], [], w) && [INIT][|[INIT]| - 1] == INIT;
    s := ReachStep(INIT, Connect(0, false), w);
    s := TakeOne(s, 0, w);
    IdAtSucc(0);
    s := ReachStep(s, Store(0), w);
    s := ReachStep(s, Send(0), w);
  }

  lemma {:induction false} PendingThrough(n: nat, w: nat) returns (s: State)
    requires n < w
    ensures Reachable(s, w) && Pending(s, n)
  {
    if n == 0 {
      s := FirstPending(w);
    } else {
      var s0 := PendingThrough(n - 1, w);
      s := TakeOne(s0, n, w);
      IdAtSucc(n);
      assert s.uses[0] == s.uses[..|s0.uses|][0];
    }
  }

  /** One more id and the counter is back at 1: the new request takes over the slot of the waiting one. */
  lemma TakeOver(s0: State, r: nat, w: nat) returns (s: State, t: nat)
    requires 0 < r < w && Reachable(s0, w) && Pending(s0, r - 1) && IdAt(r) == 1
    ensures Reachable(s, w) && r in s.requests && s.requests[r] == Request(false, FRAME, 0, Waiting(t), [t])
    ensures 0 < t < |s.uses| && s.uses[t].req == r && s.uses[t].answer == None
    ensures s.uses[0] == Use(0, 0, 1, 0, WithId(FRAME, 1), OnWire, None)
    ensures 0 in s.conns && s.conns[0].reading && 1 in s.conns[0].demux && s.conns[0].demux[1].ticket == t
  {
    t := |s0.uses|;
    s := TakeOne(s0, r, w);
    assert s.uses[0] == s.uses[..t][0];
    s := ReachStep(s, Store(r), w);
    s := ReachStep(s, Send(r), w);
  }

  /** The node answers request 0, and the reader hands the answer to whoever is stored under id 1. */
  lemma AnswerGoesAstray(s0: State, t: nat, answer: seq<byte>, w: nat) returns (s: State)
    requires Reachable(s0, w) && 0 < t < |s0.uses|
    requires s0.uses[0] == Use(0, 0, 1, 0, WithId(FRAME, 1), OnWire, None)
    requires 0 in s0.conns && s0.conns[0].reading && 1 in s0.conns[0].demux && s0.conns[0].demux[1].ticket == t
    requires |answer| >= 12 && IdOf(answer) == 1
    ensures Reachable(s, w) && s.requests == s0.requests && |s.uses| == |s0.uses| && s.uses[t] == s0.uses[t]
    ensures t in s.delivered && s.delivered[t] == answer
  {
    WithIdLaws(FRAME, 1);
    s := ReachStep(s0, NodeAnswers(0, answer), w);
    s := ReachStep(s, ReaderGets(0), w);
  }

  /** One id more than 2^32 is too many: a run inside such a window has a request that returned another's answer. */
  lemma CrossTalkBeyondTheWindow(w: nat) returns (s: State, r: nat)
    requires w > U32_SPAN
    ensures Reachable(s, w) && MixedUp(s, r)
  {
    r := U32_SPAN;
    var s0 := PendingThrough(r - 1, w);
    var s1, t := TakeOver(s0, r, w);
    var answer := WithId(FRAME + [0, 0, 0], 1);
    WithIdLaws(FRAME + [0, 0, 0], 1);
    var s2 := AnswerGoesAstray(s1, t, answer, w);
    s := ReachStep(s2, Receive(r), w);
    RestoreGivesClientId(answer, IdOf(FRAME));
  }

  /** No run inside the window ever returns another request's answer. */
  ghost predicate KeepsApart(w: nat) {
    forall states: seq<State>, steps: seq<Step>, n: nat, r: nat ::
      WindowRun(states, steps, w) && n < |states| ==> !MixedUp(states[n], r)
  }

  /** Replies are never mixed up exactly as long as every live use is fewer than 2^32 ids old when an id is taken. */
  lemma ExactWindow(w: nat)
    ensures KeepsApart(w) <==> w <= U32_SPAN
  {
    if w <= U32_SPAN {
      forall states: seq<State>, steps: seq<Step>, n: nat, r: nat | WindowRun(states, steps, w) && n < |states|
        ensures !MixedUp(states[n], r)
      {
        WindowRunsAreCareful(states, steps, w);
        if Succeeded(states[n], r) {
          NoCrossTalkInRuns(states, steps, n, r);
        }
      }
    } else {
      var s, r := CrossTalkBeyondTheWindow(w);
      var states, steps :| WindowRun(states, steps, w) && states[|states| - 1] == s;
    }
  }
}
