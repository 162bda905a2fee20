/** The leader part of a sync in the state machine does what the code does when nothing interrupts it. */
module LeaderSync {
  import opened Bytes
  import opened LeaderPool
  import opened ClusterSync

  /** The next step of caller `a`, where `connects[i]` is what connecting for slot `i` gives. */
  function NextStep(s: Cluster, a: nat, connects: seq<Option<nat>>): Option<Step> {
    match At(s, a)
    case Comparing(_) => Some(Compare(a))
    case Resetting(_) => Some(ClearSlots(a))
    case Naming(_) => Some(StoreHost(a))
    case Scanning(_) => Some(ScanSlots(a))
    case Filling(_, todo) =>
      if todo == [] then Some(FillDone(a))
      else if todo[0] < |connects| && connects[todo[0]].Some? then Some(Fill(a, connects[todo[0]].value))
      else Some(FillFails(a))
    case Renaming(_, _) => Some(StoreHostAgain(a))
    case _ => None
  }

  /** The caller's steps one after another, and nobody else's. */
  ghost predicate Uninterrupted(states: seq<Cluster>, steps: seq<Step>, c: nat, a: nat, connects: seq<Option<nat>>) {
    && |states| == |steps| + 1
    && forall i {:trigger steps[i]} :: 0 <= i < |steps| ==>
         Some(steps[i]) == NextStep(states[i], a, connects) &&
         Enabled(states[i], c, steps[i]) && states[i + 1] == Apply(states[i], c, steps[i])
  }

  /** The slots once a change of leader has been dealt with. */
  function Base(s0: Cluster, topo: Topology): Slots {
    if s0.host == Some(topo.leader) then s0.slots else seq(|s0.slots|, _ => None)
  }

  /** Of the slots to fill, the first `n` have been tried. */
  ghost predicate PartFilled(s0: Cluster, slots: Slots, topo: Topology, connects: seq<Option<nat>>, todo: seq<nat>, n: nat) {
    var base := Base(s0, topo);
    var all := ToFill(base, s0.closed, |base|);
    && n <= |all| && todo == all[n..] && |slots| == |base| == |connects|
    && forall i: nat :: i < |slots| ==>
         slots[i] == if i in all[..n] && connects[i].Some? then Some(LeaderConn(connects[i].value, topo.leader)) else base[i]
  }

  /** What a whole sync makes of each slot: the same as the code. */
  ghost predicate Synced(s0: Cluster, slots: Slots, topo: Topology, connects: seq<Option<nat>>) {
    && |slots| == |s0.slots| == |connects|
    && forall i: nat :: i < |slots| ==>
         slots[i] == if s0.host == Some(topo.leader) && OpenSlot(s0.slots, s0.closed, i) then s0.slots[i]
                     else if connects[i].Some? then Some(LeaderConn(connects[i].value, topo.leader))
                     else if s0.host == Some(topo.leader) then s0.slots[i] else None
  }

  /** Where the caller has got to. */
  ghost predicate Midway(s0: Cluster, s: Cluster, a: nat, topo: Topology, connects: seq<Option<nat>>) {
    && s.closed == s0.closed && |s.slots| == |s0.slots| == |connects|
    && match At(s, a)
       case Comparing(t) => t == topo && s.slots == s0.slots && s.host == s0.host
       case Resetting(t) => t == topo && s.slots == s0.slots && s0.host != Some(topo.leader)
       case Naming(t) => t == topo && s.slots == Base(s0, topo) && s0.host != Some(topo.leader)
       case Scanning(t) => t == topo && s.slots == Base(s0, topo) && s.host == Some(topo.leader)
       case Filling(t, todo) => t == topo && s.host == Some(topo.leader) && Part(s0, s, topo, connects, todo)
       case Renaming(t, todo) => t == topo && Part(s0, s, topo, connects, todo)
       case Snapshotting(followers) => followers == topo.followers && s.host == Some(topo.leader) && Synced(s0, s.slots, topo, connects)
       case _ => false
  }

  ghost predicate Part(s0: Cluster, s: Cluster, topo: Topology, connects: seq<Option<nat>>, todo: seq<nat>) {
    exists n: nat :: PartFilled(s0, s.slots, topo, connects, todo, n)
  }

  lemma NoneTried(s0: Cluster, topo: Topology, connects: seq<Option<nat>>)
    requires |s0.slots| == |connects|
    ensures var base := Base(s0, topo); PartFilled(s0, base, topo, connects, ToFill(base, s0.closed, |base|), 0)
  {}

  lemma OneTried(s0: Cluster, slots: Slots, topo: Topology, connects: seq<Option<nat>>, todo: seq<nat>, n: nat)
    requires PartFilled(s0, slots, topo, connects, todo, n) && todo != []
    ensures todo[0] < |slots|
    ensures var slots' := if connects[todo[0]].Some? then slots[todo[0] := Some(LeaderConn(connects[todo[0]].value, topo.leader))]
                          else slots;
            PartFilled(s0, slots', topo, connects, todo[1..], n + 1)
  {
    var base := Base(s0, topo);
    var all := ToFill(base, s0.closed, |base|);
    ToFillIsEmpty(base, s0.closed, |base|);
    assert todo[0] == all[n] && all[..n + 1] == all[..n] + [all[n]] && todo[1..] == all[n + 1..];
  }

  lemma AllTried(s0: Cluster, slots: Slots, topo: Topology, connects: seq<Option<nat>>, n: nat)
    requires PartFilled(s0, slots, topo, connects, [], n)
    ensures Synced(s0, slots, topo, connects)
  {
    var base := Base(s0, topo);
    var all := ToFill(base, s0.closed, |base|);
    ToFillIsEmpty(base, s0.closed, |base|);
    assert all[..n] == all;
    forall i: nat | i < |slots| ensures i in all <==> !OpenSlot(base, s0.closed, i) {}
  }

  lemma StepsMidway(s0: Cluster, s: Cluster, c: nat, a: nat, topo: Topology, connects: seq<Option<nat>>, step: Step)
    requires Midway(s0, s, a, topo, connects) && Some(step) == NextStep(s, a, connects) && Enabled(s, c, step)
    ensures Midway(s0, Apply(s, c, step), a, topo, connects)
  {
    match At(s, a)
    case Scanning(_) => NoneTried(s0, topo, connects);
    case Filling(_, todo) => FillingMidway(s0, s, c, a, topo, connects, step, todo);
    case _ =>
  }

  /** Trying one slot: the caller goes on with the rest. */
  lemma TriedMidway(s0: Cluster, s: Cluster, s': Cluster, a: nat, topo: Topology, connects: seq<Option<nat>>,
                    todo: seq<nat>, n: nat)
    requires PartFilled(s0, s.slots, topo, connects, todo, n) && todo != []
    requires s.closed == s0.closed && |s.slots| == |s0.slots| == |connects| && s.host == Some(topo.leader)
    requires todo[0] < |connects| && s'.closed == s.closed && s'.host == s.host
    requires if connects[todo[0]].Some? then
               s'.slots == s.slots[todo[0] := Some(LeaderConn(connects[todo[0]].value, topo.leader))] &&
               At(s', a) == Renaming(topo, todo[1..])
             else s'.slots == s.slots && At(s', a) == Filling(topo, todo[1..])
    ensures Midway(s0, s', a, topo, connects)
  {
    OneTried(s0, s.slots, topo, connects, todo, n);
    assert PartFilled(s0, s'.slots, topo, connects, todo[1..], n + 1);
  }

  lemma FillingMidway(s0: Cluster, s: Cluster, c: nat, a: nat, topo: Topology, connects: seq<Option<nat>>, step: Step,
                      todo: seq<nat>)
    requires Part(s0, s, topo, connects, todo) && At(s, a) == Filling(topo, todo)
    requires s.closed == s0.closed && |s.slots| == |s0.slots| == |connects| && s.host == Some(topo.leader)
    requires Some(step) == NextStep(s, a, connects) && Enabled(s, c, step)
    ensures Midway(s0, Apply(s, c, step), a, topo, connects)
  {
    var n: nat :| PartFilled(s0, s.slots, topo, connects, todo, n);
    if todo == [] {
      AllTried(s0, s.slots, topo, connects, n);
    } else {
      TodoInRange(s0, s.slots, topo, connects, todo, n);
      TriedMidway(s0, s, Apply(s, c, step), a, topo, connects, todo, n);
    }
  }

  lemma TodoInRange(s0: Cluster, slots: Slots, topo: Topology, connects: seq<Option<nat>>, todo: seq<nat>, n: nat)
    requires PartFilled(s0, slots, topo, connects, todo, n) && todo != []
    ensures todo[0] < |slots| == |connects|
  {
    OneTried(s0, slots, topo, connects, todo, n);
  }

  lemma {:induction false} UninterruptedMidway(states: seq<Cluster>, steps: seq<Step>, c: nat, a: nat, topo: Topology,
                                              connects: seq<Option<nat>>, n: nat)
    requires Uninterrupted(states, steps, c, a, connects) && n < |states|
    requires At(states[0], a) == Comparing(topo) && |states[0].slots| == |connects|
    ensures Midway(states[0], states[n], a, topo, connects)
  {
    if n > 0 {
      UninterruptedMidway(states, steps, c, a, topo, connects, n - 1);
      StepsMidway(states[0], states[n - 1], c, a, topo, connects, steps[n - 1]);
    }
  }

  /**
   * A caller that runs the leader part without interruption makes of every slot what the code makes of it, whatever its
   * connects give, and stores the leader host.
   */
  lemma MachineSyncsTheLeader(states: seq<Cluster>, steps: seq<Step>, c: nat, a: nat, topo: Topology,
                              connects: seq<Option<nat>>)
    requires Uninterrupted(states, steps, c, a, connects)
    requires At(states[0], a) == Comparing(topo) && |states[0].slots| == |connects|
    requires At(states[|states| - 1], a).Snapshotting?
    ensures var s := states[|states| - 1];
            s.host == Some(topo.leader) && Synced(states[0], s.slots, topo, connects)
  {
    UninterruptedMidway(states, steps, c, a, topo, connects, |states| - 1);
  }
}
