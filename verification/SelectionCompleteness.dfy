/** Exactly which pools a selection never fails on while a connection is open. */
module SelectionCompleteness {
  import opened Bytes
  import opened FollowerPool
  import opened FollowerSync
  import opened FollowerIndices
  import opened OpenFairness

  /** Every pooled node has an index below the number of known nodes, and shares it with no other known node. */
  ghost predicate Findable(p: Pool) {
    forall k :: k in p.conns ==>
      k.node < |p.history| && forall nd :: nd in p.history && nd.index == k.node ==> nd == NodeOf(k)
  }

  /** A connection is found exactly when one is open. */
  ghost predicate Complete(p: Pool, c: nat, closed: set<nat>, order: seq<Node>)
    requires Lists(order, p.history)
  {
    Select(p, closed, c, order, |p.history|).1.Some? <==> exists k :: OpenAt(p.conns, closed, k)
  }

  lemma FindableIsEnough(p: Pool, c: nat, closed: set<nat>, order: seq<Node>)
    requires PoolInv(p, c) && Lists(order, p.history) && Findable(p)
    ensures Complete(p, c, closed, order)
  {
    SelectExact(p, closed, c, order);
    if k :| OpenAt(p.conns, closed, k) {
      var nd := NodeOf(k);
      assert nd in order && FirstAt(order, nd.index) == Some(nd);
      assert OpenAt(p.conns, closed, KeyAt(nd, k.slot));
      assert Reachable(p, closed, c, order, nd.index);
    }
  }

  lemma {:induction false} Listing(nodes: set<Node>) returns (order: seq<Node>)
    ensures forall nd :: nd in order <==> nd in nodes
    decreases nodes
  {
    if nodes == {} {
      order := [];
    } else {
      var nd :| nd in nodes;
      order := Listing(nodes - {nd});
      order := order + [nd];
    }
  }

  /** With only one node open, and that node out of the selection's reach, nothing is found. */
  lemma Missed(p: Pool, c: nat, k: Key, closed: set<nat>, order: seq<Node>)
    requires PoolInv(p, c) && k in p.conns && OnePlaceEach(p.conns) && Lists(order, p.history)
    requires closed == set x | x in p.conns && NodeOf(x) != NodeOf(k) :: p.conns[x]
    requires k.node >= |p.history| || FirstAt(order, k.node) != Some(NodeOf(k))
    ensures !Complete(p, c, closed, order)
  {
    SelectExact(p, closed, c, order);
    assert OpenAt(p.conns, closed, k);
    forall i ensures !Reachable(p, closed, c, order, i) {
      if FirstAt(order, i).Some? {
        var nd := FirstAt(order, i).value;
        assert nd != NodeOf(k) ==> !HasOpen(p.conns, closed, c, nd);
      }
    }
  }

  lemma FindableIsNeeded(p: Pool, c: nat, k: Key) returns (closed: set<nat>, order: seq<Node>)
    requires PoolInv(p, c) && OnePlaceEach(p.conns) && k in p.conns
    requires k.node >= |p.history| || exists nd :: nd in p.history && nd.index == k.node && nd != NodeOf(k)
    ensures Lists(order, p.history) && !Complete(p, c, closed, order)
  {
    closed := set x | x in p.conns && NodeOf(x) != NodeOf(k) :: p.conns[x];
    order := Listing(p.history.Keys);
    if k.node < |p.history| {
      var nd :| nd in p.history && nd.index == k.node && nd != NodeOf(k);
      order := [nd] + order;
    }
    Missed(p, c, k, closed, order);
  }

  /**
   * Selection succeeds whenever a connection is open, for every set of closed connections and every iteration order,
   * exactly when every pooled node is findable.
   */
  lemma CompletenessIff(p: Pool, c: nat)
    requires PoolInv(p, c) && OnePlaceEach(p.conns)
    ensures Findable(p) <==>
            forall closed: set<nat>, order: seq<Node> :: Lists(order, p.history) ==> Complete(p, c, closed, order)
  {
    if Findable(p) {
      forall closed: set<nat>, order: seq<Node> | Lists(order, p.history) ensures Complete(p, c, closed, order) {
        FindableIsEnough(p, c, closed, order);
      }
    } else {
      var k :| k in p.conns &&
               !(k.node < |p.history| && forall nd :: nd in p.history && nd.index == k.node ==> nd == NodeOf(k));
      var closed, order := FindableIsNeeded(p, c, k);
    }
  }

  lemma DenseIsFindable(p: Pool, c: nat)
    requires PoolInv(p, c) && Dense(p.history)
    ensures Findable(p)
  {}

  // ---- Which hosts a selection can lead to ----

  /** A selection finds nothing or a connection to one of the hosts. */
  ghost predicate Inside(p: Pool, c: nat, closed: set<nat>, order: seq<Node>, hosts: seq<Host>)
    requires Lists(order, p.history)
  {
    var found := Select(p, closed, c, order, |p.history|).1;
    found.Some? ==> found.value.name in hosts
  }

  lemma SelectedIsInRange(p: Pool, c: nat, closed: set<nat>, order: seq<Node>)
    requires PoolInv(p, c) && Lists(order, p.history)
    ensures var found := Select(p, closed, c, order, |p.history|).1;
            found.Some? ==> OpenAt(p.conns, closed, found.value) && found.value.node < |p.history|
  {
    SelectKeeps(p, closed, c, order, |p.history|);
    if Select(p, closed, c, order, |p.history|).1.Some? {
      var j := SelectFirst(p, closed, c, order, |p.history|);
    }
  }

  /** Some closures and some iteration order make a selection lead to a given pooled host. */
  lemma CanBeSelected(p: Pool, c: nat, k: Key) returns (closed: set<nat>, order: seq<Node>)
    requires PoolInv(p, c) && OnePlaceEach(p.conns) && k in p.conns && k.node < |p.history|
    ensures Lists(order, p.history)
    ensures var found := Select(p, closed, c, order, |p.history|).1; found.Some? && found.value.name == k.name
  {
    closed := set x | x in p.conns && NodeOf(x) != NodeOf(k) :: p.conns[x];
    order := Listing(p.history.Keys);
    order := [NodeOf(k)] + order;
    assert OpenAt(p.conns, closed, KeyAt(NodeOf(k), k.slot));
    assert Reachable(p, closed, c, order, k.node);
    SelectExact(p, closed, c, order);
    SelectedIsInRange(p, c, closed, order);
  }

  /**
   * Selections stay inside a list of hosts, for every set of closed connections and every iteration order, exactly when
   * the list has every pooled host whose index is in range; for a findable pool, every pooled host.
   */
  lemma StaysInsideIff(p: Pool, c: nat, hosts: seq<Host>)
    requires PoolInv(p, c) && OnePlaceEach(p.conns)
    ensures (forall closed: set<nat>, order: seq<Node> :: Lists(order, p.history) ==> Inside(p, c, closed, order, hosts)) <==>
            (forall k :: k in p.conns && k.node < |p.history| ==> k.name in hosts)
    ensures Findable(p) ==>
              ((forall k :: k in p.conns && k.node < |p.history| ==> k.name in hosts) <==>
               (forall k :: k in p.conns ==> k.name in hosts))
  {
    if forall k :: k in p.conns && k.node < |p.history| ==> k.name in hosts {
      forall closed: set<nat>, order: seq<Node> | Lists(order, p.history) ensures Inside(p, c, closed, order, hosts) {
        SelectedIsInRange(p, c, closed, order);
      }
    } else {
      var k :| k in p.conns && k.node < |p.history| && k.name !in hosts;
      var closed, order := CanBeSelected(p, c, k);
      assert !Inside(p, c, closed, order, hosts);
    }
  }

  // ---- A gap ----

  /** What a first sync makes of two followers when only "b" can be connected to. */
  lemma OnlySecondConnects() returns (q: Pool)
    ensures AllRoom(EMPTY.conns, ["b"], map["b" := [7]], 1)
    ensures q == SyncWrite(EMPTY, ["a", "b"], ["b"], map["b" := [7]], {}, 1)
    ensures q.history == map[Node("b", 1) := 0] && Key("b", 1, 0) in q.conns
  {
    var extra: map<Host, seq<nat>> := map["b" := [7]];
    assert KeysOf(EMPTY.conns, "b") == {};
    var free := FreeIds(UsedNodes(EMPTY.conns), 2);
    assert UsedNodes(EMPTY.conns) == {} && OpenSlots(EMPTY.conns, {}, "b") == {};
    AllFree(2);
    AllFree(1);
    var p0, rest, name := LastPlacement(EMPTY, free, ["b"], extra, {}, 1);
    assert ["b"][..0] == [];
    assert (p0, rest) == (EMPTY, free);
    InsertConnsEffect(EMPTY, Node("b", 1), [0], [7]);
    assert FreeSlots(EMPTY.conns, {}, "b", 1) == [0];
    q := InsertConns(EMPTY, Node("b", 1), [0], [7]);
    assert KeyAt(Node("b", 1), [0][0]) in q.conns;
  }

  /**
   * A gap: of two followers only "b" could be connected to, so it gets index 1 while one node is known.  Its open
   * connection is not found.
   */
  lemma FailedHostLeavesAGap()
    ensures var extra := map["b" := [7]];
            && AllRoom(EMPTY.conns, ["b"], extra, 1)
            && var q := SyncWrite(EMPTY, ["a", "b"], ["b"], extra, {}, 1);
               && OpenAt(q.conns, {}, Key("b", 1, 0))
               && Lists([Node("b", 1)], q.history)
               && Select(q, {}, 1, [Node("b", 1)], |q.history|).1 == None
  {
    var q := OnlySecondConnects();
    var order := [Node("b", 1)];
    SelectExact(q, {}, 1, order);
    assert FirstAt(order, 0) == None;
    forall i ensures !Reachable(q, {}, 1, order, i) {}
  }
}
