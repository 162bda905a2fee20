/**
 * Reconciling with the cluster as a state machine: any number of callers run the sync, selections and closures
 * interleave with every step of it, and each section under a lock is one step.
 */
module ClusterSync {
  import opened Bytes
  import opened Collections
  import opened FollowerPool
  import opened FollowerSync
  import opened FollowerIds
  import opened LeaderPool
  import Election

  type Topology = Election.Topology

  /** Where a caller of the sync is. */
  datatype Phase =
    | Idle
    | Discovering
    | Comparing(topo: Topology)                  // about to compare the leader host
    | Resetting(topo: Topology)                  // the leader changed; slots not cleared yet
    | Naming(topo: Topology)                     // slots cleared; leader host not stored yet
    | Scanning(topo: Topology)                   // about to look for slots to fill
    | Filling(topo: Topology, todo: seq<nat>)
    | Renaming(topo: Topology, todo: seq<nat>)   // a slot was filled; leader host to be stored again
    | Snapshotting(followers: seq<Host>)
    | Connecting(followers: seq<Host>, required: map<Host, int>)
    | Finishing

  /**
   * `panicked` is set whenever a section might index out of range or subtract below zero: filling a slot that does not
   * exist, a host with more than `c` connections at the snapshot, or more new connections than a host has room for.
   */
  datatype Cluster = Cluster(slots: Slots, host: Option<Host>, pool: Pool, closed: set<nat>, syncing: bool,
                             callers: map<nat, Phase>, panicked: bool)

  function Init(c: nat): Cluster { Cluster(seq(c, _ => None), None, EMPTY, {}, false, map[], false) }

  datatype Step =
    | Call(a: nat)
    | Discover(a: nat, topo: Topology)
    | DiscoverFails(a: nat)
    | Compare(a: nat)
    | ClearSlots(a: nat)
    | StoreHost(a: nat)
    | ScanSlots(a: nat)
    | Fill(a: nat, id: nat)
    | FillFails(a: nat)
    | StoreHostAgain(a: nat)
    | FillDone(a: nat)
    | Snapshot(a: nat)
    | Place(a: nat, names: seq<Host>, extra: map<Host, seq<nat>>)
    | Finish(a: nat)
    | CloseConn(id: nat)
    | VisitFollower(order: seq<Node>)

  function At(s: Cluster, a: nat): Phase { if a in s.callers then s.callers[a] else Idle }

  /** A discovery that succeeds gives the outcome of a sound election. */
  ghost predicate Elected(topo: Topology) {
    exists nodes, id :: Election.Sound(nodes, topo, id)
  }

  /** The connections in a leader slot or in the pool. */
  function InUse(s: Cluster): set<nat> {
    s.pool.conns.Values + set i | 0 <= i < |s.slots| && s.slots[i].Some? :: s.slots[i].value.id
  }

  ghost predicate Enabled(s: Cluster, c: nat, step: Step) {
    match step
    case Call(a) => At(s, a).Idle?
    case Discover(a, topo) => At(s, a).Discovering? && Elected(topo)
    case DiscoverFails(a) => At(s, a).Discovering?
    case Compare(a) => At(s, a).Comparing?
    case ClearSlots(a) => At(s, a).Resetting?
    case StoreHost(a) => At(s, a).Naming?
    case ScanSlots(a) => At(s, a).Scanning?
    case Fill(a, id) => At(s, a).Filling? && At(s, a).todo != [] && id !in InUse(s)
    case FillFails(a) => At(s, a).Filling? && At(s, a).todo != []
    case StoreHostAgain(a) => At(s, a).Renaming?
    case FillDone(a) => At(s, a).Filling? && At(s, a).todo == []
    case Snapshot(a) => At(s, a).Snapshotting?
    // Each host gets at most the connections found to be required, and at least one, all of them new.
    case Place(a, names, extra) =>
      && At(s, a).Connecting? && Distinct(names) && AllGiven(names, extra) && NewIds(InUse(s), names, extra)
      && (forall name :: name in names ==> name in At(s, a).required && |extra[name]| <= At(s, a).required[name])
    case Finish(a) => At(s, a).Finishing?
    case CloseConn(_) => true
    case VisitFollower(order) => Lists(order, s.pool.history)
  }

  function Goto(s: Cluster, a: nat, phase: Phase): Cluster {
    s.(callers := s.callers[a := phase])
  }

  ghost function Apply(s: Cluster, c: nat, step: Step): Cluster
    requires Enabled(s, c, step)
  {
    match step
    case Call(a) => if s.syncing then s else Goto(s.(syncing := true), a, Discovering)
    case Discover(a, topo) => Goto(s, a, Comparing(topo))
    case DiscoverFails(a) => Goto(s, a, Finishing)
    case Compare(a) =>
      var topo := At(s, a).topo;
      Goto(s, a, if s.host == Some(topo.leader) then Scanning(topo) else Resetting(topo))
    case ClearSlots(a) => Goto(s.(slots := seq(|s.slots|, _ => None)), a, Naming(At(s, a).topo))
    case StoreHost(a) => Goto(s.(host := Some(At(s, a).topo.leader)), a, Scanning(At(s, a).topo))
    case ScanSlots(a) => Goto(s, a, Filling(At(s, a).topo, ToFill(s.slots, s.closed, |s.slots|)))
    case Fill(a, id) =>
      var p := At(s, a);
      if p.todo[0] >= |s.slots| then s.(panicked := true)
      else Goto(s.(slots := s.slots[p.todo[0] := Some(LeaderConn(id, p.topo.leader))]), a, Renaming(p.topo, p.todo[1..]))
    case FillFails(a) => Goto(s, a, Filling(At(s, a).topo, At(s, a).todo[1..]))
    case StoreHostAgain(a) => Goto(s.(host := Some(At(s, a).topo.leader)), a, Filling(At(s, a).topo, At(s, a).todo))
    case FillDone(a) => Goto(s, a, Snapshotting(At(s, a).topo.followers))
    case Snapshot(a) =>
      if exists name :: |KeysOf(s.pool.conns, name)| > c then s.(panicked := true)
      else Goto(s, a, Connecting(At(s, a).followers, Required(s.pool.conns, At(s, a).followers, c)))
    case Place(a, names, extra) =>
      if !(PoolInv(s.pool, c) && AllRoom(s.pool.conns, names, extra, c)) then s.(panicked := true)
      else Goto(s.(pool := SyncWrite(s.pool, At(s, a).followers, names, extra, s.closed, c)), a, Finishing)
    case Finish(a) => Goto(s.(syncing := false), a, Idle)
    case CloseConn(id) => s.(closed := s.closed + {id})
    case VisitFollower(order) => s.(pool := Visit(s.pool, s.closed, c, order).0)
  }

  // ---- The invariant ----

  ghost predicate PhaseOk(s: Cluster, c: nat, phase: Phase) {
    match phase
    case Resetting(topo) => s.host != Some(topo.leader)
    case Naming(_) => forall i :: 0 <= i < |s.slots| ==> s.slots[i].None?
    case Scanning(topo) => s.host == Some(topo.leader)
    case Filling(topo, todo) => s.host == Some(topo.leader) && TodoOk(s, todo)
    case Renaming(topo, todo) => s.host == Some(topo.leader) && TodoOk(s, todo)
    case Connecting(_, required) =>
      forall name :: name in required ==> required[name] + |KeysOf(s.pool.conns, name)| <= c
    case _ => true
  }

  ghost predicate TodoOk(s: Cluster, todo: seq<nat>) {
    Distinct(todo) && forall i :: 0 <= i < |todo| ==> todo[i] < |s.slots| && !OpenSlot(s.slots, s.closed, todo[i])
  }

  /** At most one caller is past the flag, and the flag says whether there is one. */
  ghost predicate OneSyncer(s: Cluster) {
    && (forall a, b :: !At(s, a).Idle? && !At(s, b).Idle? ==> a == b)
    && (s.syncing <==> exists a :: !At(s, a).Idle?)
  }

  ghost predicate Inv(s: Cluster, c: nat) {
    && !s.panicked && |s.slots| == c && PoolInv(s.pool, c) && OnePlaceEach(s.pool.conns)
    && SlotsAt(s.slots, s.host) && OneSyncer(s)
    && forall a :: PhaseOk(s, c, At(s, a))
  }

  // ---- Every step keeps it ----

  lemma SyncerMoves(s: Cluster, s': Cluster, a: nat, phase: Phase)
    requires OneSyncer(s) && !At(s, a).Idle? && !phase.Idle?
    requires s'.callers == s.callers[a := phase] && s'.syncing == s.syncing
    ensures OneSyncer(s')
    ensures forall b :: b != a ==> At(s', b).Idle?
  {
    assert !At(s, a).Idle? && !At(s', a).Idle?;
    forall b | b != a ensures At(s', b).Idle? { assert At(s', b) == At(s, b); }
  }

  /** A step of the one syncer: only its own phase has to be looked at. */
  lemma KeepSyncer(s: Cluster, s': Cluster, c: nat, a: nat, phase: Phase)
    requires Inv(s, c) && !At(s, a).Idle? && !phase.Idle?
    requires s'.callers == s.callers[a := phase] && s'.syncing == s.syncing
    requires OnePlaceEach(s'.pool.conns)
    requires !s'.panicked && |s'.slots| == c && PoolInv(s'.pool, c) && SlotsAt(s'.slots, s'.host) && PhaseOk(s', c, phase)
    ensures Inv(s', c)
  {
    SyncerMoves(s, s', a, phase);
    forall b ensures PhaseOk(s', c, At(s', b)) {}
  }

  lemma SnapshotFits(s: Cluster, c: nat, followers: seq<Host>)
    requires PoolInv(s.pool, c)
    ensures forall name :: |KeysOf(s.pool.conns, name)| <= c
    ensures PhaseOk(s, c, Connecting(followers, Required(s.pool.conns, followers, c)))
  {
    forall name ensures |KeysOf(s.pool.conns, name)| <= c { HostHoldsAtMostC(s.pool, c, name); }
  }

  /** Steps of the syncer that only move it on. */
  lemma StepMoves(s: Cluster, c: nat, step: Step)
    requires Inv(s, c) && Enabled(s, c, step)
    requires step.Discover? || step.DiscoverFails? || step.Compare? || step.ScanSlots? || step.FillFails? ||
             step.StoreHostAgain? || step.FillDone? || step.Snapshot?
    ensures Inv(Apply(s, c, step), c)
  {
    var s' := Apply(s, c, step);
    assert PhaseOk(s, c, At(s, step.a));
    if step.ScanSlots? { ToFillIsEmpty(s.slots, s.closed, |s.slots|); }
    if step.Snapshot? { SnapshotFits(s, c, At(s, step.a).followers); }
    KeepSyncer(s, s', c, step.a, s'.callers[step.a]);
  }

  /** Steps of the syncer that change the leader slots or the leader host. */
  lemma StepWrites(s: Cluster, c: nat, step: Step)
    requires Inv(s, c) && Enabled(s, c, step)
    requires step.ClearSlots? || step.StoreHost? || step.Fill?
    ensures Inv(Apply(s, c, step), c)
  {
    var s' := Apply(s, c, step);
    assert PhaseOk(s, c, At(s, step.a));
    KeepSyncer(s, s', c, step.a, s'.callers[step.a]);
  }

  /** The step that places the new follower connections. */
  lemma KeepPlace(s: Cluster, c: nat, a: nat, names: seq<Host>, extra: map<Host, seq<nat>>)
    requires Inv(s, c) && Enabled(s, c, Place(a, names, extra))
    ensures Inv(Apply(s, c, Place(a, names, extra)), c)
  {
    var s' := Apply(s, c, Place(a, names, extra));
    assert PhaseOk(s, c, At(s, a));
    assert AllRoom(s.pool.conns, names, extra, c);
    SyncKeepsOnePlace(s.pool, At(s, a).followers, names, extra, s.closed, c, InUse(s));
    KeepSyncer(s, s', c, a, Finishing);
  }

  lemma KeepCall(s: Cluster, c: nat, a: nat)
    requires Inv(s, c) && Enabled(s, c, Call(a))
    ensures Inv(Apply(s, c, Call(a)), c)
  {
    var s' := Apply(s, c, Call(a));
    if !s.syncing {
      assert forall b :: At(s', b) == if b == a then Discovering else At(s, b);
      assert !At(s', a).Idle?;
      forall b ensures PhaseOk(s', c, At(s', b)) { assert PhaseOk(s, c, At(s, b)); }
    }
  }

  lemma KeepFinish(s: Cluster, c: nat, a: nat)
    requires Inv(s, c) && Enabled(s, c, Finish(a))
    ensures Inv(Apply(s, c, Finish(a)), c)
  {
    var s' := Apply(s, c, Finish(a));
    forall b ensures At(s', b).Idle? { assert !At(s, a).Idle? && (b != a ==> At(s', b) == At(s, b)); }
  }

  lemma KeepClose(s: Cluster, c: nat, id: nat)
    requires Inv(s, c)
    ensures Inv(Apply(s, c, CloseConn(id)), c)
  {
    var s' := Apply(s, c, CloseConn(id));
    forall b ensures At(s', b) == At(s, b) && PhaseOk(s', c, At(s', b)) { assert PhaseOk(s, c, At(s, b)); }
  }

  lemma KeepVisit(s: Cluster, c: nat, order: seq<Node>)
    requires Inv(s, c) && Lists(order, s.pool.history)
    ensures Inv(Apply(s, c, VisitFollower(order)), c)
  {
    var s' := Apply(s, c, VisitFollower(order));
    VisitKeeps(s.pool, s.closed, c, order);
    DroppingKeepsOnePlace(s.pool.conns, s'.pool.conns, s.closed);
    forall b ensures At(s', b) == At(s, b) && PhaseOk(s', c, At(s', b)) {
      assert PhaseOk(s, c, At(s, b));
      forall name ensures |KeysOf(s'.pool.conns, name)| <= |KeysOf(s.pool.conns, name)| {
        SubsetSize(KeysOf(s'.pool.conns, name), KeysOf(s.pool.conns, name));
      }
    }
  }

  lemma StepKeepsInv(s: Cluster, c: nat, step: Step)
    requires Inv(s, c) && Enabled(s, c, step)
    ensures Inv(Apply(s, c, step), c)
  {
    match step
    case Call(a) => KeepCall(s, c, a);
    case Finish(a) => KeepFinish(s, c, a);
    case CloseConn(id) => KeepClose(s, c, id);
    case VisitFollower(order) => KeepVisit(s, c, order);
    case ClearSlots(_) => StepWrites(s, c, step);
    case StoreHost(_) => StepWrites(s, c, step);
    case Fill(_, _) => StepWrites(s, c, step);
    case Place(a, names, extra) => KeepPlace(s, c, a, names, extra);
    case _ => StepMoves(s, c, step);
  }
}
