/** Reads may go to a host that the last topology does not name: such hosts stay in the pool. */
module StaleHosts {
  import opened Bytes
  import opened Collections
  import opened FollowerPool
  import opened FollowerSync
  import opened FollowerIds
  import opened FollowerIndices
  import opened LeaderPool
  import opened ClusterSync
  import opened ClusterRuns

  /** The topology that the last successful discovery gave. */
  function LastTopology(steps: seq<Step>): Option<Topology> {
    if steps == [] then None
    else if steps[|steps| - 1].Discover? then Some(steps[|steps| - 1].topo)
    else LastTopology(steps[..|steps| - 1])
  }

  /** A run ends in this state, with this topology discovered last. */
  ghost predicate Reaches(s: Cluster, c: nat, last: Option<Topology>) {
    exists states, steps :: Run(states, steps, c) && states[|states| - 1] == s && LastTopology(steps) == last
  }

  lemma RunExtends(states: seq<Cluster>, steps: seq<Step>, c: nat, step: Step, s': Cluster)
    requires Run(states, steps, c) && Enabled(states[|states| - 1], c, step) && s' == Apply(states[|states| - 1], c, step)
    ensures Run(states + [s'], steps + [step], c)
  {
    var longer, more, n := states + [s'], steps + [step], |steps|;
    assert forall i :: 0 <= i <= n ==> longer[i] == states[i];
    assert longer[n + 1] == s' && more[n] == step;
    forall i | 0 <= i < |more|
      ensures Enabled(longer[i], c, more[i]) && longer[i + 1] == Apply(longer[i], c, more[i])
    {
      if i < n {
        assert more[i] == steps[i];
      }
    }
  }

  lemma LastTopologyNext(steps: seq<Step>, step: Step)
    ensures LastTopology(steps + [step]) == if step.Discover? then Some(step.topo) else LastTopology(steps)
  {
    assert (steps + [step])[..|steps|] == steps;
  }

  lemma ReachStep(s: Cluster, c: nat, last: Option<Topology>, step: Step) returns (s': Cluster)
    requires Reaches(s, c, last) && Enabled(s, c, step)
    ensures s' == Apply(s, c, step) && Reaches(s', c, if step.Discover? then Some(step.topo) else last)
  {
    var states, steps :| Run(states, steps, c) && states[|states| - 1] == s && LastTopology(steps) == last;
    s' := Apply(s, c, step);
    RunExtends(states, steps, c, step, s');
    LastTopologyNext(steps, step);
    assert (states + [s'])[|states + [s']| - 1] == s';
  }

  /** An idle cluster with one connection per node and no leader connection. */
  ghost predicate Resting(s: Cluster) {
    s.slots == [None] && !s.syncing && At(s, 0) == Idle && !s.panicked && s.closed == {}
  }

  /** Nothing but the syncer's phase, the flag and the leader host has changed. */
  ghost predicate SameElse(s: Cluster, s': Cluster) {
    s'.slots == s.slots && s'.pool == s.pool && s'.closed == s.closed && s'.panicked == s.panicked
  }

  lemma Discovered(s: Cluster, last: Option<Topology>, topo: Topology) returns (s': Cluster)
    requires Reaches(s, 1, last) && Resting(s) && Elected(topo)
    ensures Reaches(s', 1, Some(topo)) && At(s', 0) == Comparing(topo) && SameElse(s, s')
  {
    s' := ReachStep(s, 1, last, Call(0));
    s' := ReachStep(s', 1, last, Discover(0, topo));
  }

  lemma LeaderCleared(s: Cluster, topo: Topology) returns (s': Cluster)
    requires Reaches(s, 1, Some(topo)) && At(s, 0) == Comparing(topo) && s.slots == [None]
    ensures Reaches(s', 1, Some(topo)) && At(s', 0) == Scanning(topo) && SameElse(s, s')
  {
    s' := ReachStep(s, 1, Some(topo), Compare(0));
    if At(s', 0).Resetting? {
      s' := ReachStep(s', 1, Some(topo), ClearSlots(0));
      s' := ReachStep(s', 1, Some(topo), StoreHost(0));
    }
  }

  lemma FillingFails(s: Cluster, topo: Topology) returns (s': Cluster)
    requires Reaches(s, 1, Some(topo)) && At(s, 0) == Scanning(topo) && s.slots == [None] && s.closed == {}
    ensures Reaches(s', 1, Some(topo)) && At(s', 0) == Snapshotting(topo.followers) && SameElse(s, s')
  {
    assert ToFill([None], {}, 0) == [];
    s' := ReachStep(s, 1, Some(topo), ScanSlots(0));
    s' := ReachStep(s', 1, Some(topo), FillFails(0));
    s' := ReachStep(s', 1, Some(topo), FillDone(0));
  }

  /** The part of a sync that deals with the leader, which cannot be connected to. */
  lemma LeaderPart(s: Cluster, last: Option<Topology>, topo: Topology) returns (s': Cluster)
    requires Reaches(s, 1, last) && Resting(s) && Elected(topo)
    ensures Reaches(s', 1, Some(topo)) && At(s', 0) == Snapshotting(topo.followers) && SameElse(s, s')
  {
    s' := Discovered(s, last, topo);
    s' := LeaderCleared(s', topo);
    s' := FillingFails(s', topo);
  }

  /** The part of a sync that deals with the followers. */
  lemma FollowerPart(s: Cluster, topo: Topology, names: seq<Host>, extra: map<Host, seq<nat>>) returns (s': Cluster)
    requires Reaches(s, 1, Some(topo)) && At(s, 0) == Snapshotting(topo.followers)
    requires s.slots == [None] && s.closed == {} && !s.panicked
    requires PoolInv(s.pool, 1) && Distinct(names) && AllGiven(names, extra) && NewIds(InUse(s), names, extra)
    requires AllRoom(s.pool.conns, names, extra, 1)
    requires forall name :: name in names ==> name in Required(s.pool.conns, topo.followers, 1)
    ensures Reaches(s', 1, Some(topo)) && Resting(s')
    ensures s'.pool == SyncWrite(s.pool, topo.followers, names, extra, {}, 1)
  {
    SnapshotFits(s, 1, topo.followers);
    s' := ReachStep(s, 1, Some(topo), Snapshot(0));
    s' := ReachStep(s', 1, Some(topo), Place(0, names, extra));
    s' := ReachStep(s', 1, Some(topo), Finish(0));
  }

  const NODE_A := Node("a", 0)
  const KEY_A := Key("a", 0, 0)

  lemma InsertOne() returns (q: Pool)
    ensures q == InsertConns(EMPTY, NODE_A, [0], [7]) && q.history == map[NODE_A := 0] && q.conns == map[KEY_A := 7]
  {
    InsertConnsEffect(EMPTY, NODE_A, [0], [7]);
    q := InsertConns(EMPTY, NODE_A, [0], [7]);
    assert KeyAt(NODE_A, [0][0]) == KEY_A && [0][..1] == [0];
    assert q.conns.Keys == {KEY_A};
  }

  /** What a first sync makes of a single follower that can be connected to. */
  lemma OneFollower() returns (q: Pool)
    ensures AllRoom(EMPTY.conns, ["a"], map["a" := [7]], 1)
    ensures q == SyncWrite(EMPTY, ["a"], ["a"], map["a" := [7]], {}, 1)
    ensures q.history == map[NODE_A := 0] && q.conns == map[KEY_A := 7]
  {
    assert KeysOf(EMPTY.conns, "a") == {} && UsedNodes(EMPTY.conns) == {} && OpenSlots(EMPTY.conns, {}, "a") == {};
    AllFree(1);
    q := InsertOne();
    OnlyPlacement(q);
  }

  lemma OnlyPlacement(q: Pool)
    requires q == InsertConns(EMPTY, NODE_A, [0], [7])
    requires FreeIds(UsedNodes(EMPTY.conns), 1) == [0] && FreeSlots(EMPTY.conns, {}, "a", 1) == [0]
    requires AllRoom(EMPTY.conns, ["a"], map["a" := [7]], 1)
    ensures q == SyncWrite(EMPTY, ["a"], ["a"], map["a" := [7]], {}, 1)
  {
    var p0, rest, name := LastPlacement(EMPTY, [0], ["a"], map["a" := [7]], {}, 1);
    assert ["a"][..0] == [];
    assert (p0, rest) == (EMPTY, [0]);
  }

  lemma ElectedPair(leader: Host, follower: Host)
    requires leader != follower
    ensures Elected(Election.Topology(leader, [follower]))
  {
    var nodes := map[leader := Election.NodeData(leader, Election.ACTIVE_LEADER, "x"),
                     follower := Election.NodeData(follower, Election.ACTIVE_FOLLOWER, "x")];
    assert nodes[leader].leaderId == "x";
    assert Election.Reported(nodes) == {"x"};
    assert Election.Sound(nodes, Election.Topology(leader, [follower]), "x");
  }

  lemma FirstPlacement(s: Cluster, topo: Topology) returns (s': Cluster)
    requires topo.followers == ["a"] && Reaches(s, 1, Some(topo)) && At(s, 0) == Snapshotting(["a"])
    requires s.slots == [None] && s.closed == {} && !s.panicked && s.pool == EMPTY
    requires AllRoom(EMPTY.conns, ["a"], map["a" := [7]], 1)
    ensures Reaches(s', 1, Some(topo)) && Resting(s')
    ensures s'.pool == SyncWrite(EMPTY, ["a"], ["a"], map["a" := [7]], {}, 1)
  {
    assert KeysOf(EMPTY.conns, "a") == {} && InUse(s) == {};
    s' := FollowerPart(s, topo, ["a"], map["a" := [7]]);
  }

  /** After a sync with follower "a". */
  lemma FirstSync() returns (s: Cluster)
    ensures Reaches(s, 1, Some(Election.Topology("l", ["a"]))) && Resting(s)
    ensures s.pool.history == map[NODE_A := 0] && s.pool.conns == map[KEY_A := 7] && PoolInv(s.pool, 1)
  {
    var topo := Election.Topology("l", ["a"]);
    assert Run([Init(1)], [], 1) && [Init(1)][|[Init(1)]| - 1] == Init(1) && LastTopology([]) == None;
    ElectedPair("l", "a");
    s := LeaderPart(Init(1), None, topo);
    var q := OneFollower();
    s := FirstPlacement(s, topo);
  }

  /** After a further sync with follower "b", which cannot be connected to. */
  lemma SecondSync() returns (s: Cluster)
    ensures Reaches(s, 1, Some(Election.Topology("l", ["b"]))) && Resting(s)
    ensures s.pool.history == map[NODE_A := 0] && s.pool.conns == map[KEY_A := 7] && PoolInv(s.pool, 1)
  {
    var first, topo := Election.Topology("l", ["a"]), Election.Topology("l", ["b"]);
    s := FirstSync();
    ElectedPair("l", "b");
    s := LeaderPart(s, Some(first), topo);
    s := FollowerPart(s, topo, [], map[]);
  }

  /**
   * A run at rest whose last topology does not name "a", in which a selection returns the open connection to "a".
   */
  lemma ReadsGoToALostHost() returns (s: Cluster, topo: Topology, order: seq<Node>)
    ensures Reaches(s, 1, Some(topo)) && Resting(s) && Lists(order, s.pool.history)
    ensures var found := Select(s.pool, s.closed, 1, order, |s.pool.history|).1;
            found.Some? && OpenAt(s.pool.conns, s.closed, found.value) && found.value.name !in topo.followers
  {
    topo := Election.Topology("l", ["b"]);
    s := SecondSync();
    order := [NODE_A];
    assert OpenAt(s.pool.conns, s.closed, KEY_A);
    DenseSelectionIsComplete(s.pool, s.closed, 1, order);
    SelectKeeps(s.pool, s.closed, 1, order, |s.pool.history|);
  }
}
