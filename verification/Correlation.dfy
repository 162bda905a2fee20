/**
 * The correlation protocol as a state machine: any number of requests share any number of connections, and every
 * step of every request, node and reader may interleave with every other.
 */
module Correlation {
  import opened Bytes
  import opened Execute
  import opened Demux

  /** Where the frame sent under one id is: not yet handed over, on its way to the node, answered but unread, or done. */
  datatype Stage = Held | OnWire | Replied | Gone

  /**
   * One use of an id, named by its ticket (its index).  `issue` counts the ids handed out before it on its connection
   * and `answer` is what the node answered; both are history that no step of the program looks at.
   */
  datatype Use = Use(req: nat, conn: nat, id: u32, issue: nat, frame: seq<byte>, stage: Stage, answer: Option<seq<byte>>)

  datatype Phase =
    | Choosing                // about to select a connection
    | Chosen(conn: nat)       // has a connection, no id yet
    | Taken(ticket: nat)      // has an id, waiter not stored yet
    | Stored(ticket: nat)     // waiter stored, frame not handed over yet
    | Waiting(ticket: nat)    // frame handed over
    | Done(result: Result)

  datatype Request = Request(isWrite: bool, original: seq<byte>, attempts: nat, phase: Phase, tickets: seq<nat>)

  /** `leader` says which pool the connection is in. */
  datatype Conn = Conn(nextId: u32, issued: nat, demux: map<u32, Entry>, closed: bool, reading: bool, leader: bool)

  datatype State = State(requests: map<nat, Request>, conns: map<nat, Conn>, uses: seq<Use>,
                         delivered: map<nat, seq<byte>>, clock: int)

  const INIT := State(map[], map[], [], map[], 0)

  datatype Step =
    | Arrive(r: nat, isWrite: bool, frame: seq<byte>)
    | Connect(c: nat, leader: bool)
    | Choose(r: nat, c: nat)
    | NoneToChoose(r: nat)
    | TakeId(r: nat)
    | Store(r: nat)
    | Send(r: nat)
    | SendFails(r: nat)
    | NodeAnswers(t: nat, bytes: seq<byte>)
    | ReaderGets(t: nat)
    | ReaderStops(c: nat)
    | Close(c: nat)
    | CleanUp(c: nat, threshold: int)
    | Receive(r: nat)
    | ChannelDrops(r: nat)
    | Tick

  ghost predicate InDemux(s: State, t: nat)
    requires t < |s.uses|
  {
    var u := s.uses[t];
    u.conn in s.conns && u.id in s.conns[u.conn].demux && s.conns[u.conn].demux[u.id].ticket == t
  }

  /** A use is live while its frame is under way or its waiter is stored. */
  ghost predicate Live(s: State, t: nat)
    requires t < |s.uses|
  {
    s.uses[t].stage != Gone || InDemux(s, t)
  }

  ghost predicate InPhase(s: State, r: nat) {
    r in s.requests
  }

  ghost predicate Holds(s: State, t: nat) {
    t < |s.uses| && s.uses[t].conn in s.conns
  }

  ghost predicate Enabled(s: State, step: Step) {
    match step
    case Arrive(r, _, frame) => r !in s.requests && Executable(frame)
    case Connect(c, _) => c !in s.conns
    // Writes choose among the leader connections, reads among the follower connections.
    case Choose(r, c) => InPhase(s, r) && s.requests[r].phase.Choosing? && c in s.conns && !s.conns[c].closed &&
                         s.conns[c].leader == s.requests[r].isWrite
    case NoneToChoose(r) => InPhase(s, r) && s.requests[r].phase.Choosing?
    case TakeId(r) => InPhase(s, r) && s.requests[r].phase.Chosen? && s.requests[r].phase.conn in s.conns &&
                      |s.requests[r].original| >= 9
    case Store(r) => InPhase(s, r) && s.requests[r].phase.Taken? && Holds(s, s.requests[r].phase.ticket)
    case Send(r) => InPhase(s, r) && s.requests[r].phase.Stored? && Holds(s, s.requests[r].phase.ticket)
    case SendFails(r) => InPhase(s, r) && s.requests[r].phase.Stored? && Holds(s, s.requests[r].phase.ticket)
    // The node answers a frame it received at most once, under the id it received.
    case NodeAnswers(t, bytes) => Holds(s, t) && s.uses[t].stage == OnWire && |s.uses[t].frame| >= 9 &&
                                  |bytes| >= 12 && IdOf(bytes) == IdOf(s.uses[t].frame)
    case ReaderGets(t) => Holds(s, t) && s.uses[t].stage == Replied && s.uses[t].answer.Some? &&
                          |s.uses[t].answer.value| >= 12 && s.conns[s.uses[t].conn].reading
    case ReaderStops(c) => c in s.conns
    case Close(c) => c in s.conns
    case CleanUp(c, _) => c in s.conns && s.conns[c].closed
    case Receive(r) => InPhase(s, r) && s.requests[r].phase.Waiting? && s.requests[r].phase.ticket in s.delivered &&
                       |s.requests[r].original| >= 9
    case ChannelDrops(r) => InPhase(s, r) && s.requests[r].phase.Waiting? && s.requests[r].phase.ticket < |s.uses| &&
                            s.requests[r].phase.ticket !in s.delivered && !InDemux(s, s.requests[r].phase.ticket)
    case Tick => true
  }

  /** The waiters that a cleanup answers with an empty response. */
  function ExpiredTickets(demux: map<u32, Entry>, threshold: int): set<nat> {
    set id | id in Expired(demux, threshold) :: demux[id].ticket
  }

  function SetPhase(s: State, r: nat, phase: Phase): State
    requires r in s.requests
  {
    s.(requests := s.requests[r := s.requests[r].(phase := phase)])
  }

  /** A failed attempt: the third one gives up. */
  function Retry(s: State, r: nat, error: ExecError): State
    requires r in s.requests
  {
    var q := s.requests[r];
    var phase := if q.attempts + 1 >= MAX_ATTEMPTS then Done(Err(error)) else Choosing;
    s.(requests := s.requests[r := q.(attempts := q.attempts + 1, phase := phase)])
  }

  function SetStage(s: State, t: nat, stage: Stage): State
    requires t < |s.uses|
  {
    s.(uses := s.uses[t := s.uses[t].(stage := stage)])
  }

  function SetConn(s: State, c: nat, conn: Conn): State {
    s.(conns := s.conns[c := conn])
  }

  function Apply(s: State, step: Step): State
    requires Enabled(s, step)
  {
    match step
    case Arrive(r, isWrite, frame) =>
      s.(requests := s.requests[r := Request(isWrite, frame, 0, Choosing, [])])
    case Connect(c, leader) => SetConn(s, c, Conn(1, 0, map[], false, true, leader))
    case Choose(r, c) => SetPhase(s, r, Chosen(c))
    case NoneToChoose(r) => Retry(s, r, FailureOf(s.requests[r].isWrite, NoConnection))
    case TakeId(r) =>
      var q, t := s.requests[r], |s.uses|;
      var c := s.conns[q.phase.conn];
      var u := Use(r, q.phase.conn, c.nextId, c.issued, WithId(q.original, c.nextId), Held, None);
      SetConn(s, q.phase.conn, c.(nextId := (c.nextId + 1) % U32_SPAN, issued := c.issued + 1))
        .(uses := s.uses + [u], requests := s.requests[r := q.(phase := Taken(t), tickets := q.tickets + [t])])
    case Store(r) =>
      var t := s.requests[r].phase.ticket;
      var u := s.uses[t];
      var c := s.conns[u.conn];
      SetPhase(SetConn(s, u.conn, c.(demux := c.demux[u.id := Entry(t, s.clock)])), r, Stored(t))
    case Send(r) =>
      var t := s.requests[r].phase.ticket;
      SetStage(SetPhase(s, r, Waiting(t)), t, OnWire)
    case SendFails(r) => SetStage(Retry(s, r, Timeout), s.requests[r].phase.ticket, Gone)
    case NodeAnswers(t, bytes) => s.(uses := s.uses[t := s.uses[t].(stage := Replied, answer := Some(bytes))])
    case ReaderGets(t) =>
      var u := s.uses[t];
      var c, id := s.conns[u.conn], IdOf(u.answer.value);
      if id in c.demux then
        SetConn(SetStage(s, t, Gone), u.conn, c.(demux := c.demux - {id}))
          .(delivered := s.delivered[c.demux[id].ticket := u.answer.value])
      else SetConn(SetStage(s, t, Gone), u.conn, c.(closed := true, reading := false))
    case ReaderStops(c) => SetConn(s, c, s.conns[c].(closed := true, reading := false))
    case Close(c) => SetConn(s, c, s.conns[c].(closed := true))
    case CleanUp(c, threshold) =>
      var late := ExpiredTickets(s.conns[c].demux, threshold);
      SetConn(s, c, s.conns[c].(demux := Kept(s.conns[c].demux, threshold)))
        .(delivered := s.delivered + map t | t in late :: [])
    case Receive(r) =>
      SetPhase(s, r, Done(Ok(Restore(s.delivered[s.requests[r].phase.ticket], IdOf(s.requests[r].original)))))
    case ChannelDrops(r) => Retry(s, r, Timeout)
    case Tick => s.(clock := s.clock + 1)
  }

  // ---- The invariant ----

  function IdAt(issue: nat): u32 { (1 + issue) % U32_SPAN }

  ghost predicate ConnOk(s: State, c: nat)
    requires c in s.conns
  {
    forall id :: id in s.conns[c].demux ==>
      var t := s.conns[c].demux[id].ticket; t < |s.uses| && s.uses[t].conn == c && s.uses[t].id == id
  }

  ghost predicate UseOk(s: State, t: nat)
    requires t < |s.uses|
  {
    var u := s.uses[t];
    && u.req in s.requests && u.conn in s.conns
    && (u.stage in {Held, OnWire} ==> u.answer.None?)
    && (u.stage == Replied ==> u.answer.Some?)
    && (u.stage in {OnWire, Replied} ==> InDemux(s, t) || s.conns[u.conn].closed)
  }

  ghost predicate PhaseOk(s: State, r: nat)
    requires r in s.requests
  {
    var q := s.requests[r];
    match q.phase
    case Choosing => true
    case Chosen(c) => c in s.conns
    case Taken(t) => t in q.tickets && t < |s.uses| && s.uses[t].stage == Held && t !in s.delivered && !InDemux(s, t)
    case Stored(t) => t in q.tickets && t < |s.uses| && s.uses[t].stage == Held && (InDemux(s, t) || t in s.delivered)
                      && s.uses[t].conn in s.conns && (InDemux(s, t) || s.conns[s.uses[t].conn].closed)
    case Waiting(t) => t in q.tickets && t < |s.uses| && (InDemux(s, t) || t in s.delivered)
    case Done(_) => true
  }

  ghost predicate RequestOk(s: State, r: nat)
    requires r in s.requests
  {
    var q := s.requests[r];
    && Executable(q.original)
    && q.attempts <= MAX_ATTEMPTS && (!q.phase.Done? ==> q.attempts < MAX_ATTEMPTS)
    && |q.tickets| <= q.attempts + (if q.phase.Choosing? || q.phase.Chosen? then 0 else 1)
    && (q.phase.Done? ==> |q.tickets| <= MAX_ATTEMPTS)
    && (forall t :: t in q.tickets ==> t < |s.uses| && s.uses[t].req == r)
    && PhaseOk(s, r)
  }

  ghost predicate DeliveredOk(s: State) {
    forall t :: t in s.delivered ==>
      t < |s.uses| && !InDemux(s, t) && (s.delivered[t] == [] || s.uses[t].answer == Some(s.delivered[t]))
  }

  /** No two live uses on one connection have the same id. */
  ghost predicate DistinctIds(s: State) {
    forall t, t' :: 0 <= t < t' < |s.uses| && s.uses[t].conn == s.uses[t'].conn && Live(s, t) && Live(s, t') ==>
      s.uses[t].id != s.uses[t'].id
  }

  /** The counter of a connection is where its history of issued ids puts it. */
  ghost predicate Counters(s: State) {
    && (forall c :: c in s.conns ==> s.conns[c].nextId == IdAt(s.conns[c].issued))
    && (forall t :: 0 <= t < |s.uses| && s.uses[t].conn in s.conns ==>
          s.uses[t].issue < s.conns[s.uses[t].conn].issued && s.uses[t].id == IdAt(s.uses[t].issue))
  }

  /** The frame of a use is its request's own under its id, and its answer has that id. */
  ghost predicate WireOk(s: State, t: nat)
    requires t < |s.uses|
  {
    var u := s.uses[t];
    && u.req in s.requests && |s.requests[u.req].original| >= 9
    && u.frame == WithId(s.requests[u.req].original, u.id)
    && (u.answer.Some? ==> |u.answer.value| >= 12 && IdOf(u.answer.value) == u.id)
  }

  ghost predicate Wire(s: State) {
    forall t :: 0 <= t < |s.uses| ==> WireOk(s, t)
  }

  ghost predicate Succeeded(s: State, r: nat) {
    r in s.requests && s.requests[r].phase.Done? && s.requests[r].phase.result.Ok?
  }

  /** A finished request that succeeded returns what was delivered under one of its own tickets. */
  ghost predicate Results(s: State) {
    forall r :: Succeeded(s, r) ==> exists t :: Delivers(s, r, t)
  }

  ghost predicate Delivers(s: State, r: nat, t: nat)
    requires Succeeded(s, r)
  {
    var q := s.requests[r];
    && t in q.tickets && t in s.delivered && |q.original| >= 9
    && q.phase.result.reply == Restore(s.delivered[t], IdOf(q.original))
  }

  ghost predicate Core(s: State) {
    && (forall c :: c in s.conns ==> ConnOk(s, c))
    && (forall t :: 0 <= t < |s.uses| ==> UseOk(s, t))
    && (forall r :: r in s.requests ==> RequestOk(s, r))
    && DeliveredOk(s)
    && DistinctIds(s)
  }

  ghost predicate Inv(s: State) {
    Core(s) && Counters(s) && Wire(s) && Results(s)
  }

  /** The id about to be taken is in no live use on that connection. */
  ghost predicate NoReissue(s: State, r: nat)
    requires Enabled(s, TakeId(r))
  {
    var c := s.requests[r].phase.conn;
    forall t :: 0 <= t < |s.uses| && s.uses[t].conn == c && Live(s, t) ==> s.uses[t].id != s.conns[c].nextId
  }

  // ---- Every step keeps the invariant ----

  /** Uses keep their identity and none becomes live. */
  ghost predicate NoNewLive(s: State, s': State) {
    && |s'.uses| == |s.uses|
    && forall t :: 0 <= t < |s.uses| ==>
         s'.uses[t].conn == s.uses[t].conn && s'.uses[t].id == s.uses[t].id && (Live(s', t) ==> Live(s, t))
  }

  lemma DistinctKept(s: State, s': State)
    requires DistinctIds(s) && NoNewLive(s, s')
    ensures DistinctIds(s')
  {}

  /** The request of use `t` is between taking the id and handing over the frame. */
  ghost predicate Busy(s: State, t: nat)
    requires t < |s.uses|
  {
    s.uses[t].req in s.requests && s.requests[s.uses[t].req].phase in {Taken(t), Stored(t)}
  }

  /** What the request of use `t` relies on is still so. */
  ghost predicate TicketKept(s: State, s': State, t: nat)
    requires t < |s.uses| == |s'.uses|
  {
    && s'.uses[t].req == s.uses[t].req && s.uses[t].conn in s.conns && s'.uses[t].conn in s'.conns
    && (InDemux(s, t) || t in s.delivered ==> InDemux(s', t) || t in s'.delivered)
    && (Busy(s, t) ==>
          && s'.uses[t].stage == s.uses[t].stage
          && (!InDemux(s, t) && t !in s.delivered ==> !InDemux(s', t) && t !in s'.delivered)
          && (InDemux(s, t) || s.conns[s.uses[t].conn].closed ==> InDemux(s', t) || s'.conns[s'.uses[t].conn].closed))
  }

  lemma RequestsKept(s: State, s': State)
    requires Core(s) && s'.requests == s.requests && s.conns.Keys <= s'.conns.Keys && |s'.uses| == |s.uses|
    requires forall t :: 0 <= t < |s.uses| ==> TicketKept(s, s', t)
    ensures forall r :: r in s'.requests ==> RequestOk(s', r)
  {
    forall r | r in s'.requests ensures RequestOk(s', r) {
      assert RequestOk(s, r);
      assert forall t :: t in s.requests[r].tickets ==> TicketKept(s, s', t);
    }
  }

  /** Only request `r` changes, and not the frame it came with. */
  lemma KeepRequest(s: State, r: nat, q: Request)
    requires Core(s)
    requires r in s.requests ==> q.original == s.requests[r].original
    requires RequestOk(s.(requests := s.requests[r := q]), r)
    ensures Core(s.(requests := s.requests[r := q]))
  {
    var s' := s.(requests := s.requests[r := q]);
    forall c | c in s'.conns ensures ConnOk(s', c) { assert ConnOk(s, c); }
    forall t | 0 <= t < |s'.uses| ensures UseOk(s', t) { assert UseOk(s, t); }
    forall r' | r' in s'.requests ensures RequestOk(s', r') { assert r' != r ==> RequestOk(s, r'); }
    assert forall t :: 0 <= t < |s.uses| ==> InDemux(s', t) == InDemux(s, t);
    DistinctKept(s, s');
  }

  lemma KeepConnect(s: State, s': State, c: nat, conn: Conn)
    requires Core(s) && c !in s.conns && conn.demux == map[] && s' == s.(conns := s.conns[c := conn])
    ensures Core(s')
  {
    assert forall t :: 0 <= t < |s.uses| ==> UseOk(s, t) && InDemux(s', t) == InDemux(s, t);
    forall c' | c' in s'.conns ensures ConnOk(s', c') { assert c' != c ==> ConnOk(s, c'); }
    forall t | 0 <= t < |s'.uses| ensures UseOk(s', t) && TicketKept(s, s', t) { assert UseOk(s, t) && RequestOk(s, s.uses[t].req); }
    RequestsKept(s, s');
    DistinctKept(s, s');
  }

  /** Only use `t` changes, in its stage or its answer. */
  ghost predicate OnlyUseChanges(s: State, s': State, t: nat) {
    && t < |s.uses| == |s'.uses| && s' == s.(uses := s'.uses)
    && (forall k :: 0 <= k < |s.uses| && k != t ==> s'.uses[k] == s.uses[k])
    && s'.uses[t] == s.uses[t].(stage := s'.uses[t].stage, answer := s'.uses[t].answer)
    && (s'.uses[t].stage == Gone || s.uses[t].stage != Gone)
    && (s'.uses[t].answer == s.uses[t].answer || s.uses[t].answer.None?)
  }

  lemma KeepUse(s: State, s': State, t: nat)
    requires Core(s) && OnlyUseChanges(s, s', t) && UseOk(s', t) && !Busy(s, t)
    ensures Core(s')
  {
    assert forall k :: 0 <= k < |s.uses| ==> InDemux(s', k) == InDemux(s, k);
    forall c | c in s'.conns ensures ConnOk(s', c) { assert ConnOk(s, c); }
    forall k | 0 <= k < |s'.uses| ensures UseOk(s', k) && TicketKept(s, s', k) { assert UseOk(s, k); }
    RequestsKept(s, s');
    DistinctKept(s, s');
  }

  lemma KeepClosed(s: State, c: nat, reading: bool)
    requires Core(s) && c in s.conns
    ensures Core(SetConn(s, c, s.conns[c].(closed := true, reading := reading)))
  {
    var s' := SetConn(s, c, s.conns[c].(closed := true, reading := reading));
    assert forall t :: 0 <= t < |s.uses| ==> UseOk(s, t) && InDemux(s', t) == InDemux(s, t);
    forall c' | c' in s'.conns ensures ConnOk(s', c') { assert ConnOk(s, c'); }
    forall t | 0 <= t < |s'.uses| ensures UseOk(s', t) && TicketKept(s, s', t) { assert UseOk(s, t) && RequestOk(s, s.uses[t].req); }
    RequestsKept(s, s');
    DistinctKept(s, s');
  }

  /** Only connection `c` changes, and of it neither the ids nor, once set, the closed flag. */
  ghost predicate OnlyConnChanges(s: State, s': State, c: nat) {
    && s'.requests == s.requests && s'.uses == s.uses && s'.conns.Keys == s.conns.Keys && c in s.conns
    && (forall k :: k in s.conns && k != c ==> s'.conns[k] == s.conns[k])
    && (s.conns[c].closed ==> s'.conns[c].closed)
  }

  /** The waiters in `answers`, and only they, leave the table of `c`; each gets its answer, or an empty one. */
  ghost predicate WaitersAnswered(s: State, s': State, c: nat, answers: map<nat, seq<byte>>)
    requires OnlyConnChanges(s, s', c)
  {
    && (forall id :: id in s'.conns[c].demux <==> id in s.conns[c].demux && s.conns[c].demux[id].ticket !in answers)
    && (forall id :: id in s'.conns[c].demux ==> s'.conns[c].demux[id] == s.conns[c].demux[id])
    && s'.delivered == s.delivered + answers
    && (forall t :: t in answers ==>
          && t < |s.uses| && s.uses[t].conn == c && InDemux(s, t)
          && (s.uses[t].stage == Gone || s.conns[c].closed)
          && (answers[t] == [] || s.uses[t].answer == Some(answers[t])))
  }

  lemma AnsweredWaiters(s: State, s': State, c: nat, answers: map<nat, seq<byte>>)
    requires Core(s) && OnlyConnChanges(s, s', c) && WaitersAnswered(s, s', c, answers)
    ensures forall t :: 0 <= t < |s.uses| ==> InDemux(s', t) == (InDemux(s, t) && t !in answers)
  {
    forall t | 0 <= t < |s.uses| ensures InDemux(s', t) == (InDemux(s, t) && t !in answers) { assert UseOk(s, t); }
  }

  lemma AnsweredTickets(s: State, s': State, c: nat, answers: map<nat, seq<byte>>)
    requires Core(s) && OnlyConnChanges(s, s', c) && WaitersAnswered(s, s', c, answers)
    ensures forall t :: 0 <= t < |s'.uses| ==> UseOk(s', t)
    ensures forall t :: 0 <= t < |s'.uses| ==> TicketKept(s, s', t)
  {
    AnsweredWaiters(s, s', c, answers);
    forall t | 0 <= t < |s'.uses| ensures UseOk(s', t) && TicketKept(s, s', t) {
      assert UseOk(s, t) && RequestOk(s, s.uses[t].req);
    }
  }

  lemma KeepAnswered(s: State, s': State, c: nat, answers: map<nat, seq<byte>>)
    requires Core(s) && OnlyConnChanges(s, s', c) && WaitersAnswered(s, s', c, answers)
    ensures Core(s')
  {
    AnsweredWaiters(s, s', c, answers);
    AnsweredTickets(s, s', c, answers);
    RequestsKept(s, s');
    forall k | k in s'.conns ensures ConnOk(s', k) { assert ConnOk(s, k); }
    DistinctKept(s, s');
  }

  /** A new use of an id appears on connection `c`, not yet under way. */
  ghost predicate NewUse(s: State, s': State, c: nat) {
    var n := |s.uses|;
    && s'.requests == s.requests && s'.delivered == s.delivered && s'.conns.Keys == s.conns.Keys && c in s.conns
    && (forall k :: k in s.conns ==> s'.conns[k].demux == s.conns[k].demux && s'.conns[k].closed == s.conns[k].closed)
    && |s'.uses| == n + 1 && (forall t :: 0 <= t < n ==> s'.uses[t] == s.uses[t])
    && s'.uses[n].req in s.requests && s'.uses[n].conn == c && s'.uses[n].stage == Held && s'.uses[n].answer == None
    && (forall t :: 0 <= t < n && s.uses[t].conn == c && Live(s, t) ==> s.uses[t].id != s'.uses[n].id)
  }

  lemma NewUseWaiters(s: State, s': State, c: nat)
    requires Core(s) && NewUse(s, s', c)
    ensures forall t :: 0 <= t < |s.uses| ==> InDemux(s', t) == InDemux(s, t)
    ensures !InDemux(s', |s.uses|)
  {
    forall t | 0 <= t < |s.uses| ensures InDemux(s', t) == InDemux(s, t) { assert UseOk(s, t); }
    assert ConnOk(s, c);
  }

  lemma NewUseRequests(s: State, s': State, c: nat)
    requires Core(s) && NewUse(s, s', c)
    ensures forall r :: r in s'.requests ==> RequestOk(s', r)
  {
    NewUseWaiters(s, s', c);
    forall r | r in s'.requests ensures RequestOk(s', r) { assert RequestOk(s, r); }
  }

  lemma NewUseDistinct(s: State, s': State, c: nat)
    requires Core(s) && NewUse(s, s', c)
    ensures DistinctIds(s')
  {
    NewUseWaiters(s, s', c);
    forall t, k | 0 <= t < k < |s'.uses| && s'.uses[t].conn == s'.uses[k].conn && Live(s', t) && Live(s', k)
      ensures s'.uses[t].id != s'.uses[k].id
    {
      assert Live(s, t) && (k < |s.uses| ==> Live(s, k));
    }
  }

  lemma NewUseUses(s: State, s': State, c: nat)
    requires Core(s) && NewUse(s, s', c)
    ensures forall k :: k in s'.conns ==> ConnOk(s', k)
    ensures forall t :: 0 <= t < |s'.uses| ==> UseOk(s', t)
  {
    NewUseWaiters(s, s', c);
    forall k | k in s'.conns ensures ConnOk(s', k) { assert ConnOk(s, k); }
    forall t | 0 <= t < |s.uses| ensures UseOk(s', t) { assert UseOk(s, t); }
  }

  lemma KeepNewUse(s: State, s': State, c: nat)
    requires Core(s) && NewUse(s, s', c)
    ensures Core(s') && !InDemux(s', |s.uses|) && |s.uses| !in s'.delivered
  {
    NewUseWaiters(s, s', c);
    NewUseRequests(s, s', c);
    NewUseDistinct(s, s', c);
    NewUseUses(s, s', c);
  }

  /** The slot a waiter is stored in was free: nobody's waiter is overwritten. */
  lemma StoreOverwritesNobody(s: State, r: nat)
    requires Core(s) && Enabled(s, Store(r))
    ensures var u := s.uses[s.requests[r].phase.ticket]; u.id !in s.conns[u.conn].demux
  {
    var t := s.requests[r].phase.ticket;
    var u := s.uses[t];
    assert RequestOk(s, r);
    if u.id in s.conns[u.conn].demux {
      var other := s.conns[u.conn].demux[u.id].ticket;
      assert ConnOk(s, u.conn);
      assert InDemux(s, other) && Live(s, other) && Live(s, t);
    }
  }

  /** Request `r` stores its waiter `t`. */
  ghost predicate WaiterStored(s: State, s': State, r: nat, t: nat) {
    && r in s.requests && s.requests[r].phase == Taken(t) && Holds(s, t)
    && s'.uses == s.uses && s'.delivered == s.delivered && s'.conns.Keys == s.conns.Keys
    && (forall k :: k in s.conns && k != s.uses[t].conn ==> s'.conns[k] == s.conns[k])
    && s'.conns[s.uses[t].conn].closed == s.conns[s.uses[t].conn].closed
    && s'.conns[s.uses[t].conn].demux == s.conns[s.uses[t].conn].demux[s.uses[t].id := Entry(t, s.clock)]
    && s'.requests == s.requests[r := s.requests[r].(phase := Stored(t))]
  }

  lemma StoredWaiters(s: State, s': State, r: nat, t: nat)
    requires Core(s) && WaiterStored(s, s', r, t)
    ensures forall k :: 0 <= k < |s.uses| ==> InDemux(s', k) == (InDemux(s, k) || k == t)
  {
    StoreOverwritesNobody(s, r);
    forall k | 0 <= k < |s.uses| ensures InDemux(s', k) == (InDemux(s, k) || k == t) { assert UseOk(s, k); }
  }

  lemma StoredRequests(s: State, s': State, r: nat, t: nat)
    requires Core(s) && WaiterStored(s, s', r, t)
    ensures forall k :: k in s'.requests ==> RequestOk(s', k)
  {
    StoredWaiters(s, s', r, t);
    assert RequestOk(s, r);
    forall k | k in s'.requests ensures RequestOk(s', k) { assert RequestOk(s, k); }
  }

  lemma KeepStore(s: State, s': State, r: nat, t: nat)
    requires Core(s) && WaiterStored(s, s', r, t)
    ensures Core(s')
  {
    assert RequestOk(s, r);
    StoredWaiters(s, s', r, t);
    StoredRequests(s, s', r, t);
    forall k | k in s'.conns ensures ConnOk(s', k) { assert ConnOk(s, k); }
    forall k | 0 <= k < |s'.uses| ensures UseOk(s', k) { assert UseOk(s, k); }
    DistinctKept(s, s');
  }

  // ---- The steps one by one ----

  /** Steps that change nothing but the phase and the attempt count of one request. */
  lemma RequestMovesOn(s: State, step: Step, r: nat)
    requires Enabled(s, step) && r in s.requests && RequestOk(s, r)
    requires step.Choose? || step.NoneToChoose? || step.Receive? || step.ChannelDrops?
    requires step.r == r
    ensures var s' := Apply(s, step);
            && r in s'.requests && s' == s.(requests := s.requests[r := s'.requests[r]])
            && s'.requests[r].original == s.requests[r].original && RequestOk(s', r)
  {}

  lemma StepOfRequest(s: State, step: Step, r: nat)
    requires Core(s) && Enabled(s, step)
    requires step.Choose? || step.NoneToChoose? || step.Receive? || step.ChannelDrops?
    requires step.r == r
    ensures Core(Apply(s, step))
  {
    RequestMovesOn(s, step, r);
    KeepRequest(s, r, Apply(s, step).requests[r]);
  }

  lemma StepTakeId(s: State, r: nat)
    requires Core(s) && Enabled(s, TakeId(r)) && NoReissue(s, r)
    ensures Core(Apply(s, TakeId(r)))
  {
    var s' := Apply(s, TakeId(r));
    var s1 := s'.(requests := s.requests);
    assert RequestOk(s, r);
    KeepNewUse(s, s1, s.requests[r].phase.conn);
    KeepRequest(s1, r, s'.requests[r]);
  }

  /** The request lets go of its frame, for better or worse. */
  lemma LetGo(s: State, r: nat, t: nat, q: Request)
    requires Core(s) && r in s.requests && s.requests[r].phase == Stored(t)
    requires q == s.requests[r].(phase := Waiting(t)) || q == Retry(s, r, Timeout).requests[r]
    ensures var s1 := s.(requests := s.requests[r := q]);
            Core(s1) && t < |s1.uses| && !Busy(s1, t) && UseOk(s1, t) && s1.uses[t].stage == Held &&
            (InDemux(s1, t) || s1.conns[s1.uses[t].conn].closed)
  {
    assert RequestOk(s, r);
    KeepRequest(s, r, q);
    assert UseOk(s.(requests := s.requests[r := q]), t);
  }

  lemma StepSend(s: State, r: nat)
    requires Core(s) && Enabled(s, Send(r))
    ensures Core(Apply(s, Send(r)))
  {
    var t := s.requests[r].phase.ticket;
    var s1 := SetPhase(s, r, Waiting(t));
    LetGo(s, r, t, s1.requests[r]);
    KeepUse(s1, Apply(s, Send(r)), t);
  }

  lemma StepSendFails(s: State, r: nat)
    requires Core(s) && Enabled(s, SendFails(r))
    ensures Core(Apply(s, SendFails(r)))
  {
    var t := s.requests[r].phase.ticket;
    var s1 := Retry(s, r, Timeout);
    LetGo(s, r, t, s1.requests[r]);
    assert s1 == s.(requests := s.requests[r := s1.requests[r]]);
    KeepUse(s1, Apply(s, SendFails(r)), t);
  }

  /** A use whose frame is under way is no longer in its request's hands. */
  lemma NotBusy(s: State, t: nat)
    requires Core(s) && t < |s.uses| && s.uses[t].stage != Held
    ensures !Busy(s, t)
  {
    assert UseOk(s, t) && RequestOk(s, s.uses[t].req);
  }

  lemma StepNodeAnswers(s: State, t: nat, bytes: seq<byte>)
    requires Core(s) && Enabled(s, NodeAnswers(t, bytes))
    ensures Core(Apply(s, NodeAnswers(t, bytes)))
  {
    assert UseOk(s, t);
    NotBusy(s, t);
    KeepUse(s, Apply(s, NodeAnswers(t, bytes)), t);
  }

  /**
   * The reader finds the very waiter of the frame the node answered, unless the connection was already closed;
   * no other waiter is ever stored under that id.
   */
  lemma ReaderFindsItsWaiter(s: State, t: nat)
    requires Core(s) && t < |s.uses| && s.uses[t].stage == Replied && WireOk(s, t)
    ensures s.uses[t].answer.Some? && s.uses[t].conn in s.conns
    ensures var c, id := s.conns[s.uses[t].conn], IdOf(s.uses[t].answer.value);
            && (id in c.demux ==> c.demux[id].ticket == t)
            && (id !in c.demux ==> c.closed)
  {
    var u := s.uses[t];
    assert UseOk(s, t);
    var c := s.conns[u.conn];
    if u.id in c.demux {
      var other := c.demux[u.id].ticket;
      assert ConnOk(s, u.conn) && InDemux(s, other) && Live(s, other) && Live(s, t);
    }
  }

  lemma StepReaderGets(s: State, t: nat)
    requires Core(s) && Enabled(s, ReaderGets(t)) && WireOk(s, t)
    ensures Core(Apply(s, ReaderGets(t)))
  {
    var u := s.uses[t];
    var s', s1 := Apply(s, ReaderGets(t)), SetStage(s, t, Gone);
    assert UseOk(s, t);
    NotBusy(s, t);
    ReaderFindsItsWaiter(s, t);
    KeepUse(s, s1, t);
    if u.id in s.conns[u.conn].demux {
      assert ConnOk(s1, u.conn);
      ReaderRemoves(s1, s', t);
      KeepAnswered(s1, s', u.conn, map[t := u.answer.value]);
    } else {
      KeepClosed(s1, u.conn, false);
    }
  }

  lemma ReaderRemoves(s: State, s': State, t: nat)
    requires t < |s.uses| && InDemux(s, t) && s.uses[t].stage == Gone && s.uses[t].answer.Some?
    requires ConnOk(s, s.uses[t].conn)
    requires var u, c := s.uses[t], s.conns[s.uses[t].conn];
             s' == SetConn(s, u.conn, c.(demux := c.demux - {u.id})).(delivered := s.delivered[t := u.answer.value])
    ensures OnlyConnChanges(s, s', s.uses[t].conn)
    ensures WaitersAnswered(s, s', s.uses[t].conn, map[t := s.uses[t].answer.value])
  {}

  /** A cleanup takes out exactly the entries of the waiters it answers. */
  lemma CleanUpAnswers(s: State, c: nat, threshold: int, answers: map<nat, seq<byte>>)
    requires c in s.conns && ConnOk(s, c) && answers == map t | t in ExpiredTickets(s.conns[c].demux, threshold) :: []
    ensures forall id :: id in s.conns[c].demux ==>
              (s.conns[c].demux[id].ticket in answers <==> id in Expired(s.conns[c].demux, threshold))
    ensures forall t :: t in answers ==> t < |s.uses| && s.uses[t].conn == c && InDemux(s, t)
  {
    var demux := s.conns[c].demux;
    forall id | id in demux ensures demux[id].ticket in answers <==> id in Expired(demux, threshold) {
      if demux[id].ticket in answers {
        var other :| other in Expired(demux, threshold) && demux[other].ticket == demux[id].ticket;
        assert s.uses[demux[id].ticket].id == id && s.uses[demux[other].ticket].id == other;
      }
    }
  }

  lemma StepCleanUp(s: State, c: nat, threshold: int)
    requires Core(s) && Enabled(s, CleanUp(c, threshold))
    ensures Core(Apply(s, CleanUp(c, threshold)))
  {
    var answers: map<nat, seq<byte>> := map t | t in ExpiredTickets(s.conns[c].demux, threshold) :: [];
    assert ConnOk(s, c);
    CleanUpAnswers(s, c, threshold, answers);
    KeepAnswered(s, Apply(s, CleanUp(c, threshold)), c, answers);
  }

  lemma KeepTick(s: State)
    requires Core(s)
    ensures Core(Apply(s, Tick))
  {
    var s' := Apply(s, Tick);
    forall c | c in s'.conns ensures ConnOk(s', c) { assert ConnOk(s, c); }
    forall t | 0 <= t < |s'.uses| ensures UseOk(s', t) && InDemux(s', t) == InDemux(s, t) { assert UseOk(s, t); }
    forall r | r in s'.requests ensures RequestOk(s', r) { assert RequestOk(s, r); }
    DistinctKept(s, s');
  }

  /** Steps of the connections, the node, the reader and the clock. */
  lemma StepElsewhere(s: State, step: Step)
    requires Core(s) && Wire(s) && Enabled(s, step)
    requires step.Connect? || step.NodeAnswers? || step.ReaderGets? || step.ReaderStops? || step.Close? ||
             step.CleanUp? || step.Tick?
    ensures Core(Apply(s, step))
  {
    match step
    case Connect(c, leader) => KeepConnect(s, Apply(s, step), c, Conn(1, 0, map[], false, true, leader));
    case NodeAnswers(t, bytes) => StepNodeAnswers(s, t, bytes);
    case ReaderGets(t) => StepReaderGets(s, t);
    case ReaderStops(c) => KeepClosed(s, c, false);
    case Close(c) => KeepClosed(s, c, s.conns[c].reading);
    case CleanUp(c, threshold) => StepCleanUp(s, c, threshold);
    case Tick => KeepTick(s);
  }

  /** Every step keeps the core of the invariant, as long as no id in use is handed out again. */
  lemma StepKeepsCore(s: State, step: Step)
    requires Core(s) && Wire(s) && Enabled(s, step) && (step.TakeId? ==> NoReissue(s, step.r))
    ensures Core(Apply(s, step))
  {
    match step
    case Arrive(r, isWrite, frame) => KeepRequest(s, r, Apply(s, step).requests[r]);
    case Choose(r, c) => StepOfRequest(s, step, r);
    case NoneToChoose(r) => StepOfRequest(s, step, r);
    case TakeId(r) => StepTakeId(s, r);
    case Store(r) => KeepStore(s, Apply(s, step), r, s.requests[r].phase.ticket);
    case Send(r) => StepSend(s, r);
    case SendFails(r) => StepSendFails(s, r);
    case Receive(r) => StepOfRequest(s, step, r);
    case ChannelDrops(r) => StepOfRequest(s, step, r);
    case _ => StepElsewhere(s, step);
  }

  // ---- The waiter tables of the connections are demux tables ----

  /** The table operation a step performs on connection `c`. */
  ghost function TableOp(s: State, step: Step, c: nat): Option<Op>
    requires Enabled(s, step)
  {
    match step
    case Store(r) =>
      var u := s.uses[s.requests[r].phase.ticket];
      if u.conn == c then Some(Put(u.id, s.requests[r].phase.ticket, s.clock)) else None
    case ReaderGets(t) => if s.uses[t].conn == c then Some(Take(IdOf(s.uses[t].answer.value))) else None
    case CleanUp(k, threshold) => if k == c then Some(Clean(threshold)) else None
    case _ => None
  }

  /** Every step changes a connection's waiters by its table operation and no other. */
  lemma StepsAreTableOps(s: State, step: Step, c: nat)
    requires Enabled(s, step) && c in s.conns
    ensures c in Apply(s, step).conns
    ensures var before, after := s.conns[c].demux, Apply(s, step).conns[c].demux;
            after == match TableOp(s, step, c) case None => before case Some(op) => Changed(before, op)
  {
    if step.ReaderGets? && IdOf(s.uses[step.t].answer.value) !in s.conns[s.uses[step.t].conn].demux {
      var id, before := IdOf(s.uses[step.t].answer.value), s.conns[s.uses[step.t].conn].demux;
      assert before - {id} == before;
    }
  }
}
