/** What reconciling guarantees over whole runs, whatever the callers, selections and closures in between. */
module ClusterRuns {
  import opened Bytes
  import opened Collections
  import opened FollowerPool
  import opened FollowerSync
  import opened FollowerIndices
  import opened SelectionCompleteness
  import opened LeaderPool
  import opened ClusterSync

  ghost predicate Run(states: seq<Cluster>, steps: seq<Step>, c: nat) {
    && |states| == |steps| + 1 && states[0] == Init(c)
    && forall i {:trigger steps[i]} :: 0 <= i < |steps| ==>
         Enabled(states[i], c, steps[i]) && states[i + 1] == Apply(states[i], c, steps[i])
  }

  lemma {:induction false} RunsKeepInv(states: seq<Cluster>, steps: seq<Step>, c: nat, n: nat)
    requires Run(states, steps, c) && n < |states|
    ensures Inv(states[n], c)
  {
    if n > 0 {
      RunsKeepInv(states, steps, c, n - 1);
      StepKeepsInv(states[n - 1], c, steps[n - 1]);
    }
  }

  /**
   * In no run does a section index out of range or subtract below zero, no host ever holds more than `c`
   * connections, and at most one caller is past the flag.
   */
  lemma ReconcilingNeverPanics(states: seq<Cluster>, steps: seq<Step>, c: nat, n: nat)
    requires Run(states, steps, c) && n < |states|
    ensures !states[n].panicked
    ensures forall name :: |KeysOf(states[n].pool.conns, name)| <= c
    ensures forall a, b :: !At(states[n], a).Idle? && !At(states[n], b).Idle? ==> a == b
  {
    RunsKeepInv(states, steps, c, n);
    forall name ensures |KeysOf(states[n].pool.conns, name)| <= c { HostHoldsAtMostC(states[n].pool, c, name); }
  }

  // ---- The leader slots ----

  /** Whatever slot a selection picks, at any point of any sync, its connection goes to the stored leader host. */
  lemma SelectedLeaderMatchesHost(states: seq<Cluster>, steps: seq<Step>, c: nat, n: nat, last: nat, i: nat)
    requires Run(states, steps, c) && n < |states|
    requires FirstOpenAfter(states[n].slots, states[n].closed, last, i)
    ensures states[n].host == Some(states[n].slots[i].value.addr)
  {
    RunsKeepInv(states, steps, c, n);
  }

  /** Step number `j` resets the slots for a leader host other than the stored one. */
  ghost predicate Resets(states: seq<Cluster>, steps: seq<Step>, j: nat) {
    && j < |steps| && j < |states| && steps[j].ClearSlots? && At(states[j], steps[j].a).Resetting?
    && states[j].host != Some(At(states[j], steps[j].a).topo.leader)
  }

  lemma OpenLeaderConnStays(states: seq<Cluster>, steps: seq<Step>, c: nat, n: nat, i: nat)
    requires Run(states, steps, c) && n < |steps| && OpenSlot(states[n].slots, states[n].closed, i)
    ensures i < |states[n + 1].slots| && (states[n + 1].slots[i] == states[n].slots[i] || Resets(states, steps, n))
  {
    RunsKeepInv(states, steps, c, n);
    var s, step := states[n], steps[n];
    if step.Fill? || step.ClearSlots? {
      assert PhaseOk(s, c, At(s, step.a));
    }
  }

  lemma StillClosed(states: seq<Cluster>, steps: seq<Step>, c: nat, n: nat)
    requires Run(states, steps, c) && n < |steps|
    ensures states[n + 1].closed == states[n].closed + if steps[n].CloseConn? then {steps[n].id} else {}
  {
    assert states[n + 1] == Apply(states[n], c, steps[n]);
  }

  lemma ClosedGrows(states: seq<Cluster>, steps: seq<Step>, c: nat, n: nat)
    requires Run(states, steps, c) && 0 < n < |states|
    ensures states[n - 1].closed <= states[n].closed
  {
    StillClosed(states, steps, c, n - 1);
  }

  /**
   * From any point of a run to any later one, a leader connection that is still open then keeps its slot, unless the
   * slots were reset in between for a leader host other than the stored one.  In particular, filling never overwrites
   * an open connection.
   */
  lemma {:induction false} OpenLeaderConnsStay(states: seq<Cluster>, steps: seq<Step>, c: nat, m: nat, n: nat, i: nat)
    requires Run(states, steps, c) && m <= n < |states|
    requires i < |states[m].slots| && states[m].slots[i].Some? && states[m].slots[i].value.id !in states[n].closed
    ensures (i < |states[n].slots| && states[n].slots[i] == states[m].slots[i]) ||
            exists j :: m <= j < n && Resets(states, steps, j)
    decreases n
  {
    if m < n {
      ClosedGrows(states, steps, c, n);
      OpenLeaderConnsStay(states, steps, c, m, n - 1, i);
      if !exists j :: m <= j < n - 1 && Resets(states, steps, j) {
        OpenLeaderConnStays(states, steps, c, n - 1, i);
      }
    }
  }

  // ---- The follower pool ----

  /** What a step may do to the follower pool: it keeps open connections, and every node that has an index. */
  ghost predicate PoolKept(s: Cluster, s': Cluster) {
    && s.closed <= s'.closed && s.pool.history.Keys <= s'.pool.history.Keys
    && forall k :: k in s.pool.conns && s.pool.conns[k] !in s'.closed ==>
                   k in s'.pool.conns && s'.pool.conns[k] == s.pool.conns[k]
  }

  lemma StepKeepsPool(s: Cluster, c: nat, step: Step)
    requires Inv(s, c) && Enabled(s, c, step)
    ensures PoolKept(s, Apply(s, c, step))
  {
    match step
    case Place(a, names, extra) =>
      assert PhaseOk(s, c, At(s, a));
      PlaceKeepsPool(s, c, a, names, extra);
    case VisitFollower(order) =>
      VisitKeeps(s.pool, s.closed, c, order);
      OpenStays(s.pool.conns, Visit(s.pool, s.closed, c, order).0.conns, s.closed);
    case _ =>
  }

  lemma OpenStays(before: map<Key, nat>, after: map<Key, nat>, closed: set<nat>)
    requires OnlyClosedDropped(before, after, closed)
    ensures forall k :: k in before && before[k] !in closed ==> k in after && after[k] == before[k]
  {
    forall k | k in before && before[k] !in closed ensures k in after && after[k] == before[k] {
      assert OpenAt(before, closed, k);
    }
  }

  lemma PlaceKeepsPool(s: Cluster, c: nat, a: nat, names: seq<Host>, extra: map<Host, seq<nat>>)
    requires PoolInv(s.pool, c) && Enabled(s, c, Place(a, names, extra))
    ensures PoolKept(s, Apply(s, c, Place(a, names, extra)))
  {
    if AllRoom(s.pool.conns, names, extra, c) {
      var q := SyncWrite(s.pool, At(s, a).followers, names, extra, s.closed, c);
      forall k | k in s.pool.conns && s.pool.conns[k] !in s.closed ensures k in q.conns && q.conns[k] == s.pool.conns[k] {
        assert OpenAt(s.pool.conns, s.closed, k);
      }
    }
  }

  lemma PoolKeptNext(states: seq<Cluster>, steps: seq<Step>, c: nat, n: nat)
    requires Run(states, steps, c) && n < |steps|
    ensures PoolKept(states[n], states[n + 1])
  {
    RunsKeepInv(states, steps, c, n);
    StepKeepsPool(states[n], c, steps[n]);
  }

  lemma PoolKeptTwice(a: Cluster, b: Cluster, c: Cluster)
    requires PoolKept(a, b) && PoolKept(b, c)
    ensures PoolKept(a, c)
  {}

  lemma PoolKeptSame(a: Cluster)
    ensures PoolKept(a, a)
  {}

  /** A follower connection keeps its place from any point of a run to any later one, unless it is closed by then. */
  lemma {:induction false} OpenFollowerConnsStay(states: seq<Cluster>, steps: seq<Step>, c: nat, m: nat, n: nat)
    requires Run(states, steps, c) && m <= n < |states|
    ensures PoolKept(states[m], states[n])
    decreases n
  {
    if m == n {
      PoolKeptSame(states[m]);
    } else {
      OpenFollowerConnsStay(states, steps, c, m, n - 1);
      PoolKeptNext(states, steps, c, n - 1);
      PoolKeptTwice(states[m], states[n - 1], states[n]);
    }
  }

  /**
   * A host has one node index for the whole of a run: wherever it is pooled later, gone in between or not, it is
   * under the index it had, and in range of the cursor and of the connection numbers.
   */
  lemma IndicesAreStable(states: seq<Cluster>, steps: seq<Step>, c: nat, m: nat, n: nat, nd: Node, k: Key)
    requires Run(states, steps, c) && m <= n < |states|
    requires nd in states[m].pool.history && k in states[n].pool.conns && k.name == nd.name
    ensures k.node == nd.index && k.slot < c
    ensures nd in states[n].pool.history && states[n].pool.history[nd] < c
    ensures forall other :: other in states[n].pool.history && other.name == nd.name ==> other == nd
  {
    OpenFollowerConnsStay(states, steps, c, m, n);
    RunsKeepInv(states, steps, c, n);
    assert NodeOf(k) in states[n].pool.history;
  }

  // ---- Completeness of the selection over runs ----

  lemma ElectedFollowersAreDistinct(topo: Topology)
    requires Elected(topo)
    ensures Distinct(topo.followers)
  {
    var nodes, id :| Election.Sound(nodes, topo, id);
  }

  /** The follower list names each host once, and only hosts of the fixed set. */
  ghost predicate Names(followers: seq<Host>, hosts: set<Host>) {
    Distinct(followers) && HostSet(followers) <= hosts
  }

  /**
   * No topology names a host outside `hosts`, and the first time connections are placed there is at least one to each
   * of the hosts.
   */
  ghost predicate SteadyStep(s: Cluster, step: Step, hosts: set<Host>) {
    && (step.Discover? ==> HostSet(step.topo.followers) <= hosts)
    && (step.Place? && At(s, step.a).Connecting? && s.pool.history == map[] && step.names != [] ==>
          HostSet(step.names) == hosts && HostSet(At(s, step.a).followers) == hosts)
  }

  ghost predicate SteadyRun(states: seq<Cluster>, steps: seq<Step>, c: nat, hosts: set<Host>) {
    Run(states, steps, c) && forall i {:trigger steps[i]} :: 0 <= i < |steps| ==> SteadyStep(states[i], steps[i], hosts)
  }

  ghost predicate PhaseSteady(phase: Phase, hosts: set<Host>) {
    match phase
    case Idle => true
    case Discovering => true
    case Finishing => true
    case Snapshotting(followers) => Names(followers, hosts)
    case Connecting(followers, required) => Names(followers, hosts) && required.Keys <= hosts
    case _ => Names(phase.topo.followers, hosts)
  }

  /** Before the first placement nothing is pooled; from then on the indices number the hosts 0..n-1. */
  ghost predicate IndicesSteady(history: map<Node, nat>, hosts: set<Host>) {
    history == map[] || (Dense(history) && HostsOf(history) == hosts && |history| == |hosts|)
  }

  ghost predicate Steady(s: Cluster, hosts: set<Host>) {
    IndicesSteady(s.pool.history, hosts) && forall a :: PhaseSteady(At(s, a), hosts)
  }

  lemma HostCount(names: seq<Host>)
    requires Distinct(names)
    ensures |HostSet(names)| == |names|
  {
    DistinctSize(names);
    assert HostSet(names) == set x | x in names;
  }

  lemma SameHosts(names: seq<Host>, followers: seq<Host>)
    requires Distinct(names) && Distinct(followers) && HostSet(names) == HostSet(followers)
    ensures |names| == |followers| && forall name :: name in names <==> name in followers
  {
    HostCount(names);
    HostCount(followers);
    forall name ensures name in names <==> name in followers {
      assert name in names <==> name in HostSet(names);
      assert name in followers <==> name in HostSet(followers);
    }
  }

  lemma NothingKnownNothingPooled(p: Pool, c: nat)
    requires PoolInv(p, c) && p.history == map[]
    ensures p == EMPTY
  {
    assert forall k :: k in p.conns ==> NodeOf(k) in p.history;
  }

  lemma FirstPlaceSteady(p: Pool, followers: seq<Host>, names: seq<Host>, extra: map<Host, seq<nat>>, closed: set<nat>,
                         c: nat, hosts: set<Host>)
    requires PoolInv(p, c) && p.history == map[] && Distinct(names) && AllRoom(p.conns, names, extra, c)
    requires AllGiven(names, extra) && Distinct(followers)
    requires HostSet(names) == hosts && HostSet(followers) == hosts
    ensures IndicesSteady(SyncWrite(p, followers, names, extra, closed, c).history, hosts)
  {
    NothingKnownNothingPooled(p, c);
    SameHosts(names, followers);
    FirstSyncIsDense(followers, names, extra, closed, c);
    HostCount(followers);
  }

  lemma LaterPlaceSteady(p: Pool, followers: seq<Host>, names: seq<Host>, extra: map<Host, seq<nat>>, closed: set<nat>,
                         c: nat, hosts: set<Host>)
    requires PoolInv(p, c) && IndicesSteady(p.history, hosts) && Distinct(names) && AllRoom(p.conns, names, extra, c)
    requires p.history != map[] || names == []
    requires HostSet(names) <= hosts
    ensures IndicesSteady(SyncWrite(p, followers, names, extra, closed, c).history, hosts)
  {
    forall name | name in names ensures Known(p.history, name) {
      assert name in HostSet(names);
      HostKnown(p.history, name);
    }
    KnownHostsKeepHistory(p, FreeIds(UsedNodes(p.conns), |followers|), names, extra, closed, c);
  }

  lemma PlaceSteady(s: Cluster, c: nat, a: nat, names: seq<Host>, extra: map<Host, seq<nat>>, hosts: set<Host>)
    requires Inv(s, c) && Steady(s, hosts)
    requires Enabled(s, c, Place(a, names, extra)) && SteadyStep(s, Place(a, names, extra), hosts)
    ensures IndicesSteady(Apply(s, c, Place(a, names, extra)).pool.history, hosts)
  {
    var followers, required := At(s, a).followers, At(s, a).required;
    assert PhaseOk(s, c, At(s, a)) && PhaseSteady(At(s, a), hosts);
    assert HostSet(names) <= hosts;
    assert AllRoom(s.pool.conns, names, extra, c);
    if s.pool.history == map[] && names != [] {
      FirstPlaceSteady(s.pool, followers, names, extra, s.closed, c, hosts);
    } else {
      LaterPlaceSteady(s.pool, followers, names, extra, s.closed, c, hosts);
    }
  }

  lemma RequiredSteady(p: Pool, c: nat, followers: seq<Host>, hosts: set<Host>)
    requires PoolInv(p, c) && IndicesSteady(p.history, hosts) && Names(followers, hosts)
    ensures Required(p.conns, followers, c).Keys <= hosts
  {
    forall name | name in Required(p.conns, followers, c) ensures name in hosts {
      if name in followers {
        assert name in HostSet(followers);
      } else {
        var k :| k in p.conns && k.name == name;
        assert NodeOf(k) in p.history && name in HostsOf(p.history);
      }
    }
  }

  lemma VisitSteady(p: Pool, closed: set<nat>, c: nat, order: seq<Node>, hosts: set<Host>)
    requires PoolInv(p, c) && Lists(order, p.history) && IndicesSteady(p.history, hosts)
    ensures IndicesSteady(Visit(p, closed, c, order).0.history, hosts)
  {
    VisitKeeps(p, closed, c, order);
    var h := Visit(p, closed, c, order).0.history;
    assert h.Keys == p.history.Keys && |h| == |h.Keys| && |p.history| == |p.history.Keys|;
    assert HostsOf(h) == HostsOf(p.history);
  }

  lemma StepKeepsSteady(s: Cluster, c: nat, step: Step, hosts: set<Host>)
    requires Inv(s, c) && Enabled(s, c, step) && Steady(s, hosts) && SteadyStep(s, step, hosts)
    ensures Steady(Apply(s, c, step), hosts)
  {
    var s' := Apply(s, c, step);
    if step.Place? { PlaceSteady(s, c, step.a, step.names, step.extra, hosts); }
    if step.VisitFollower? { VisitSteady(s.pool, s.closed, c, step.order, hosts); }
    forall b ensures PhaseSteady(At(s', b), hosts) { PhaseStaysSteady(s, c, step, hosts, b); }
  }

  lemma PhaseStaysSteady(s: Cluster, c: nat, step: Step, hosts: set<Host>, b: nat)
    requires Inv(s, c) && Enabled(s, c, step) && Steady(s, hosts) && SteadyStep(s, step, hosts)
    ensures PhaseSteady(At(Apply(s, c, step), b), hosts)
  {
    assert PhaseSteady(At(s, b), hosts);
    if step.Discover? && step.a == b {
      ElectedFollowersAreDistinct(step.topo);
    }
    if step.Snapshot? && step.a == b {
      RequiredSteady(s.pool, c, At(s, b).followers, hosts);
    }
  }

  lemma StartIsSteady(c: nat, hosts: set<Host>)
    ensures Steady(Init(c), hosts)
  {}

  lemma SteadyFirst(states: seq<Cluster>, steps: seq<Step>, c: nat, hosts: set<Host>)
    requires SteadyRun(states, steps, c, hosts)
    ensures Steady(states[0], hosts)
  {
    StartIsSteady(c, hosts);
  }

  lemma SteadyNext(states: seq<Cluster>, steps: seq<Step>, c: nat, hosts: set<Host>, n: nat)
    requires SteadyRun(states, steps, c, hosts) && 0 < n < |states| && Steady(states[n - 1], hosts)
    ensures Steady(states[n], hosts)
  {
    RunsKeepInv(states, steps, c, n - 1);
    StepKeepsSteady(states[n - 1], c, steps[n - 1], hosts);
  }

  lemma {:induction false} SteadyRunsStaySteady(states: seq<Cluster>, steps: seq<Step>, c: nat, hosts: set<Host>, n: nat)
    requires SteadyRun(states, steps, c, hosts) && n < |states|
    ensures Steady(states[n], hosts)
  {
    if n == 0 {
      SteadyFirst(states, steps, c, hosts);
    } else {
      SteadyRunsStaySteady(states, steps, c, hosts, n - 1);
      SteadyNext(states, steps, c, hosts, n);
    }
  }

  /**
   * Selection is complete throughout such runs: the indices stay a numbering 0..n-1 of the hosts, and an uninterrupted
   * selection finds a connection exactly when a follower connection is open.
   */
  lemma SelectionIsCompleteInRuns(states: seq<Cluster>, steps: seq<Step>, c: nat, hosts: set<Host>, n: nat, order: seq<Node>)
    requires SteadyRun(states, steps, c, hosts) && n < |states| && Lists(order, states[n].pool.history)
    ensures states[n].pool == EMPTY ||
            (Dense(states[n].pool.history) && HostsOf(states[n].pool.history) == hosts &&
             |states[n].pool.history| == |hosts|)
    ensures Findable(states[n].pool)
    ensures Select(states[n].pool, states[n].closed, c, order, |states[n].pool.history|).1.Some? <==>
            exists k :: OpenAt(states[n].pool.conns, states[n].closed, k)
  {
    SteadyRunsStaySteady(states, steps, c, hosts, n);
    RunsKeepInv(states, steps, c, n);
    if states[n].pool.history == map[] { NothingKnownNothingPooled(states[n].pool, c); }
    DenseSelectionIsComplete(states[n].pool, states[n].closed, c, order);
    DenseIsFindable(states[n].pool, c);
  }

  // ---- Without those hypotheses ----

  /**
   * In every state of every run: selection succeeds whenever a connection is open, for all closures and iteration
   * orders, exactly when the pool is findable.
   */
  lemma CompleteIffFindableInRuns(states: seq<Cluster>, steps: seq<Step>, c: nat, n: nat)
    requires Run(states, steps, c) && n < |states|
    ensures var p := states[n].pool;
            Findable(p) <==>
            forall closed: set<nat>, order: seq<Node> :: Lists(order, p.history) ==> Complete(p, c, closed, order)
  {
    RunsKeepInv(states, steps, c, n);
    CompletenessIff(states[n].pool, c);
  }

  /**
   * In every state of every run: reads go only to hosts of a list, for all closures and iteration orders, exactly when
   * the list has every pooled host whose index is in range.
   */
  lemma ReadsStayInsideIffInRuns(states: seq<Cluster>, steps: seq<Step>, c: nat, n: nat, hosts: seq<Host>)
    requires Run(states, steps, c) && n < |states|
    ensures var p := states[n].pool;
            (forall closed: set<nat>, order: seq<Node> :: Lists(order, p.history) ==> Inside(p, c, closed, order, hosts)) <==>
            (forall k :: k in p.conns && k.node < |p.history| ==> k.name in hosts)
  {
    RunsKeepInv(states, steps, c, n);
    StaysInsideIff(states[n].pool, c, hosts);
  }
}
