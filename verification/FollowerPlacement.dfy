/** The placing section as code, and what it conserves. */
module FollowerPlacement {
  import opened Bytes
  import opened Collections
  import opened FollowerPool
  import opened FollowerSync

  // ---- The imperative form ----

  /** The unused indices below `n`, pushed in ascending order. */
  method CollectFree(used: set<nat>, n: nat) returns (free: seq<nat>)
    ensures free == FreeIds(used, n)
  {
    free := [];
    for i := 0 to n
      invariant free == FreeIds(used, i)
    {
      FreeIdsAreFree(used, i);
      if i !in used && i !in free {
        free := free + [i];
      }
    }
  }

  /** The index of every host in the history, by host name. */
  ghost predicate IsIndexTable(table: map<Host, nat>, history: map<Node, nat>) {
    && (forall name :: name in table <==> Known(history, name))
    && (forall name :: name in table ==> Node(name, table[name]) in history)
  }

  method IndexTable(p: Pool, c: nat) returns (table: map<Host, nat>)
    requires PoolInv(p, c)
    ensures IsIndexTable(table, p.history)
  {
    table := map[];
    var todo := p.history.Keys;
    while todo != {}
      invariant todo <= p.history.Keys
      invariant forall nd :: nd in p.history && nd !in todo ==> nd.name in table
      invariant forall name :: name in table ==> Node(name, table[name]) in p.history
      decreases todo
    {
      var nd :| nd in todo;
      todo := todo - {nd};
      table := table[nd.name := nd.index];
    }
  }

  /** The index for a host's new connections: the pooled one, else the remembered one, else the last free one. */
  method ChooseIndex(p: Pool, c: nat, name: Host, table: map<Host, nat>, free: seq<nat>)
    returns (index: Option<nat>, table': map<Host, nat>, free': seq<nat>)
    requires PoolInv(p, c) && IsIndexTable(table, p.history)
    ensures if Known(p.history, name) || free != [] then index == Some(PlacedIndex(p.history, free, name)) else index.None?
    ensures free' == if Known(p.history, name) || free == [] then free else free[..|free| - 1]
    ensures table' == if Known(p.history, name) || free == [] then table else table[name := free[|free| - 1]]
  {
    table', free' := table, free;
    var nidx: nat := 0;
    if exists k :: k in p.conns && k.name == name {
      var k :| k in p.conns && k.name == name;
      nidx := k.node;
      KnownIndex(p, c, NodeOf(k));
    }
    if nidx == 0 {
      if name in table {
        KnownIndex(p, c, Node(name, table[name]));
        nidx := table[name];
      } else if |free| > 0 {
        nidx := free[|free| - 1];
        free' := free[..|free| - 1];
        table' := table[name := nidx];
      } else {
        return None, table', free';
      }
    }
    index := Some(nidx);
  }

  /** Puts the connections into the free slots in turn. */
  method InsertAll(b: Balancer, nd: Node, slots: seq<nat>, extra: seq<nat>)
    requires |extra| <= |slots|
    modifies b
    ensures b.State() == InsertConns(old(b.State()), nd, slots, extra)
  {
    for i := 0 to |extra|
      invariant b.State() == InsertConns(old(b.State()), nd, slots, extra[..i])
    {
      assert extra[..i + 1][..i] == extra[..i];
      b.conns := b.conns[KeyAt(nd, slots[i]) := extra[i]];
      if nd !in b.history {
        b.history := b.history[nd := slots[i]];
      }
    }
    assert extra[..|extra|] == extra;
  }

  /** Places the new connections of one host. */
  method PlaceOne(b: Balancer, name: Host, extra: seq<nat>, closed: set<nat>, table: map<Host, nat>, free: seq<nat>)
    returns (table': map<Host, nat>, free': seq<nat>)
    requires PoolInv(b.State(), b.c) && IsIndexTable(table, b.history) && extra != []
    requires Room(b.conns, name, |extra|, b.c)
    modifies b
    ensures (b.State(), free') == PlaceHost(old(b.State()), free, name, extra, closed, b.c)
    ensures PoolInv(b.State(), b.c) && IsIndexTable(table', b.history)
  {
    var p := b.State();
    var slots := CollectFree(OpenSlots(b.conns, closed, name), b.c);
    RoomGivesSlots(b.conns, closed, name, |extra|, b.c);
    PlaceHostKeeps(p, free, name, extra, closed, b.c);
    var index: Option<nat>;
    index, table', free' := ChooseIndex(p, b.c, name, table, free);
    if index.None? { return; }
    var nd := Node(name, index.value);
    InsertAll(b, nd, slots, extra);
    TableKept(p, nd, slots, extra, closed, b.c, table, table');
  }

  lemma TableKept(p: Pool, nd: Node, slots: seq<nat>, extra: seq<nat>, closed: set<nat>, c: nat,
                  table: map<Host, nat>, table': map<Host, nat>)
    requires PoolInv(p, c) && IsIndexTable(table, p.history) && extra != []
    requires slots == FreeSlots(p.conns, closed, nd.name, c) && |extra| <= |slots|
    requires if Known(p.history, nd.name) then nd in p.history && table' == table else table' == table[nd.name := nd.index]
    ensures IsIndexTable(table', InsertConns(p, nd, slots, extra).history)
  {
    FreeIdsAreFree(OpenSlots(p.conns, closed, nd.name), c);
    InsertConnsEffect(p, nd, slots, extra);
    var h := InsertConns(p, nd, slots, extra).history;
    assert forall x :: x in h <==> x in p.history || x == nd;
  }

  /** The first `i` hosts have been placed, giving the pool `q` and leaving the indices `free`. */
  ghost predicate Placed(p: Pool, free0: seq<nat>, names: seq<Host>, extra: map<Host, seq<nat>>, closed: set<nat>, c: nat,
                         i: nat, q: Pool, free: seq<nat>)
  {
    && i <= |names| && PoolInv(p, c) && PoolInv(q, c)
    && Distinct(names[..i]) && AllRoom(p.conns, names[..i], extra, c)
    && (q, free) == PlaceHosts(p, free0, names[..i], extra, closed, c)
  }

  lemma PlacedNext(p: Pool, free0: seq<nat>, names: seq<Host>, extra: map<Host, seq<nat>>, closed: set<nat>, c: nat,
                   i: nat, q: Pool, free: seq<nat>)
    requires Placed(p, free0, names, extra, closed, c, i, q, free) && i < |names|
    requires Distinct(names) && AllRoom(p.conns, names, extra, c)
    ensures names[i] in extra && Room(q.conns, names[i], |extra[names[i]]|, c)
    ensures var r := PlaceHost(q, free, names[i], extra[names[i]], closed, c);
            Placed(p, free0, names, extra, closed, c, i + 1, r.0, r.1)
  {
    assert names[..i + 1][..i] == names[..i];
    var q', rest, name := LastPlacement(p, free0, names[..i + 1], extra, closed, c);
    PlaceHostKeeps(q', rest, name, extra[name], closed, c);
  }

  lemma PlacedNone(p: Pool, free0: seq<nat>, names: seq<Host>, extra: map<Host, seq<nat>>, closed: set<nat>, c: nat)
    requires PoolInv(p, c)
    ensures Placed(p, free0, names, extra, closed, c, 0, p, free0)
  {}

  lemma PlacedAll(p: Pool, followers: seq<Host>, names: seq<Host>, extra: map<Host, seq<nat>>, closed: set<nat>, c: nat,
                  q: Pool, free: seq<nat>)
    requires Placed(p, FreeIds(UsedNodes(p.conns), |followers|), names, extra, closed, c, |names|, q, free)
    ensures Distinct(names) && AllRoom(p.conns, names, extra, c)
    ensures q == SyncWrite(p, followers, names, extra, closed, c)
  {
    assert names[..|names|] == names;
  }

  /** The section under the write lock: free indices, the index table, then host by host in iteration order. */
  method WriteSection(b: Balancer, followers: seq<Host>, names: seq<Host>, extra: map<Host, seq<nat>>, closed: set<nat>)
    requires PoolInv(b.State(), b.c) && Distinct(names) && AllRoom(b.conns, names, extra, b.c)
    requires AllGiven(names, extra)
    modifies b
    ensures b.State() == SyncWrite(old(b.State()), followers, names, extra, closed, b.c)
  {
    ghost var p := b.State();
    var free := CollectFree(UsedNodes(b.conns), |followers|);
    ghost var free0 := free;
    var table := IndexTable(b.State(), b.c);
    PlacedNone(p, free0, names, extra, closed, b.c);
    for i := 0 to |names|
      invariant IsIndexTable(table, b.history) && Placed(p, free0, names, extra, closed, b.c, i, b.State(), free)
    {
      PlacedNext(p, free0, names, extra, closed, b.c, i, b.State(), free);
      assert names[i] in names;
      table, free := PlaceOne(b, names[i], extra[names[i]], closed, table, free);
    }
    PlacedAll(p, followers, names, extra, closed, b.c, b.State(), free);
  }

  // ---- Conservation of live connections ----

  function OpenKeys(conns: map<Key, nat>, closed: set<nat>, name: Host): set<Key> {
    set k | k in conns && k.name == name && conns[k] !in closed
  }

  lemma {:induction false} NewKeysCount(nd: Node, slots: seq<nat>, m: nat)
    requires m <= |slots| && Distinct(slots)
    ensures |Added(nd, slots, m)| == m
  {
    if m > 0 {
      NewKeysCount(nd, slots, m - 1);
      assert Added(nd, slots, m) == Added(nd, slots, m - 1) + {KeyAt(nd, slots[m - 1])};
      assert KeyAt(nd, slots[m - 1]) !in Added(nd, slots, m - 1);
    }
  }

  ghost function Added(nd: Node, slots: seq<nat>, m: nat): set<Key>
    requires m <= |slots|
  {
    set i | 0 <= i < m :: KeyAt(nd, slots[i])
  }

  lemma AddedKeys(nd: Node, slots: seq<nat>, m: nat)
    requires m <= |slots|
    ensures forall k :: k in Added(nd, slots, m) <==> NodeOf(k) == nd && k.slot in slots[..m]
  {
    forall k: Key | NodeOf(k) == nd && k.slot in slots[..m] ensures k in Added(nd, slots, m) {
      var i :| 0 <= i < m && slots[i] == k.slot;
      assert KeyAt(nd, slots[i]) == k;
    }
  }

  lemma InsertedAreOpen(p: Pool, nd: Node, slots: seq<nat>, extra: seq<nat>, closed: set<nat>)
    requires |extra| <= |slots| && Distinct(slots) && forall e :: e in extra ==> e !in closed
    ensures forall k :: k in Added(nd, slots, |extra|) ==> OpenAt(InsertConns(p, nd, slots, extra).conns, closed, k)
  {
    InsertConnsEffect(p, nd, slots, extra);
    forall k | k in Added(nd, slots, |extra|) ensures OpenAt(InsertConns(p, nd, slots, extra).conns, closed, k) {
      var i :| 0 <= i < |extra| && KeyAt(nd, slots[i]) == k;
      assert extra[i] in extra;
    }
  }

  lemma InsertedOpenKeys(p: Pool, nd: Node, extra: seq<nat>, closed: set<nat>, c: nat)
    requires |extra| <= |FreeSlots(p.conns, closed, nd.name, c)|
    requires forall e :: e in extra ==> e !in closed
    ensures var slots := FreeSlots(p.conns, closed, nd.name, c);
            && OpenKeys(InsertConns(p, nd, slots, extra).conns, closed, nd.name) ==
               OpenKeys(p.conns, closed, nd.name) + Added(nd, slots, |extra|)
            && OpenKeys(p.conns, closed, nd.name) !! Added(nd, slots, |extra|)
  {
    var slots := FreeSlots(p.conns, closed, nd.name, c);
    FreeIdsAreFree(OpenSlots(p.conns, closed, nd.name), c);
    var q, added := InsertConns(p, nd, slots, extra), Added(nd, slots, |extra|);
    InsertedAreOpen(p, nd, slots, extra, closed);
    OthersAsBefore(p, nd, slots, extra);
    InsertUndisturbed(p, nd, extra, closed, c);
    forall k | k in OpenKeys(p.conns, closed, nd.name) ensures k !in added {
      assert k.slot in OpenSlots(p.conns, closed, nd.name);
    }
    forall k ensures k in OpenKeys(q.conns, closed, nd.name) <==> k in OpenKeys(p.conns, closed, nd.name) || k in added {
      assert k in OpenKeys(p.conns, closed, nd.name) ==> OpenAt(p.conns, closed, k);
      assert k in added ==> OpenAt(q.conns, closed, k) && k.name == nd.name;
    }
  }

  lemma OthersAsBefore(p: Pool, nd: Node, slots: seq<nat>, extra: seq<nat>)
    requires |extra| <= |slots| && Distinct(slots)
    ensures forall k :: k !in Added(nd, slots, |extra|) ==>
              (k in InsertConns(p, nd, slots, extra).conns <==> k in p.conns) &&
              (k in p.conns ==> InsertConns(p, nd, slots, extra).conns[k] == p.conns[k])
  {
    AddedKeys(nd, slots, |extra|);
    InsertConnsEffect(p, nd, slots, extra);
  }

  /**
   * A host that gets an index gains exactly as many open connections as it was given, and keeps all those it had;
   * a host that gets none keeps what it had.
   */
  lemma OpenConnectionsGrowExactly(p: Pool, free: seq<nat>, name: Host, extra: seq<nat>, closed: set<nat>, c: nat)
    requires PoolInv(p, c) && Room(p.conns, name, |extra|, c)
    requires AllOpen(extra, closed)
    ensures var q := PlaceHost(p, free, name, extra, closed, c).0;
            |OpenKeys(q.conns, closed, name)| ==
              |OpenKeys(p.conns, closed, name)| + if Known(p.history, name) || free != [] then |extra| else 0
  {
    if Known(p.history, name) || free != [] {
      var nd := Node(name, PlacedIndex(p.history, free, name));
      RoomGivesSlots(p.conns, closed, name, |extra|, c);
      var slots := FreeSlots(p.conns, closed, name, c);
      FreeIdsAreFree(OpenSlots(p.conns, closed, name), c);
      InsertedOpenKeys(p, nd, extra, closed, c);
      NewKeysCount(nd, slots, |extra|);
    }
  }

  lemma PlaceHostLeavesOthers(p: Pool, free: seq<nat>, host: Host, extra: seq<nat>, closed: set<nat>, c: nat, name: Host)
    requires Room(p.conns, host, |extra|, c) && name != host
    ensures OpenKeys(PlaceHost(p, free, host, extra, closed, c).0.conns, closed, name) == OpenKeys(p.conns, closed, name)
  {
    if Known(p.history, host) || free != [] {
      RoomGivesSlots(p.conns, closed, host, |extra|, c);
      FreeIdsAreFree(OpenSlots(p.conns, closed, host), c);
      InsertConnsEffect(p, Node(host, PlacedIndex(p.history, free, host)), FreeSlots(p.conns, closed, host, c), extra);
    }
  }

  lemma {:induction false} PlacingLeavesOthers(p: Pool, free: seq<nat>, names: seq<Host>, extra: map<Host, seq<nat>>,
                                              closed: set<nat>, c: nat, name: Host)
    requires PoolInv(p, c) && Distinct(names) && AllRoom(p.conns, names, extra, c) && name !in names
    ensures OpenKeys(PlaceHosts(p, free, names, extra, closed, c).0.conns, closed, name) == OpenKeys(p.conns, closed, name)
    decreases |names|
  {
    if names != [] {
      var q, rest, last := LastPlacement(p, free, names, extra, closed, c);
      PlacingLeavesOthers(p, free, names[..|names| - 1], extra, closed, c, name);
      PlaceHostLeavesOthers(q, rest, last, extra[last], closed, c, name);
    }
  }

  /** Placing a host gives it an index exactly when it has one or one is free. */
  lemma PlacedIsKnown(p: Pool, free: seq<nat>, name: Host, extra: seq<nat>, closed: set<nat>, c: nat)
    requires PoolInv(p, c) && Room(p.conns, name, |extra|, c) && extra != []
    ensures var q := PlaceHost(p, free, name, extra, closed, c).0;
            && (Known(q.history, name) <==> Known(p.history, name) || free != [])
            && (forall other :: other != name ==> (Known(q.history, other) <==> Known(p.history, other)))
  {
    if Known(p.history, name) || free != [] {
      var nd := Node(name, PlacedIndex(p.history, free, name));
      RoomGivesSlots(p.conns, closed, name, |extra|, c);
      var slots := FreeSlots(p.conns, closed, name, c);
      FreeIdsAreFree(OpenSlots(p.conns, closed, name), c);
      InsertConnsEffect(p, nd, slots, extra);
      var h := InsertConns(p, nd, slots, extra).history;
      assert forall x :: x in h <==> x in p.history || x == nd;
    }
  }

  /** How many open connections a host has after a placement, given whether it has an index then. */
  ghost predicate GrewBy(p: Pool, q: Pool, closed: set<nat>, name: Host, count: nat) {
    |OpenKeys(q.conns, closed, name)| == |OpenKeys(p.conns, closed, name)| + if Known(q.history, name) then count else 0
  }

  lemma GrowsNow(p: Pool, q: Pool, free: seq<nat>, name: Host, extra: seq<nat>, closed: set<nat>, c: nat)
    requires PoolInv(q, c) && Room(q.conns, name, |extra|, c) && extra != [] && AllOpen(extra, closed)
    requires OpenKeys(q.conns, closed, name) == OpenKeys(p.conns, closed, name)
    ensures GrewBy(p, PlaceHost(q, free, name, extra, closed, c).0, closed, name, |extra|)
  {
    PlacedIsKnown(q, free, name, extra, closed, c);
    OpenConnectionsGrowExactly(q, free, name, extra, closed, c);
  }

  lemma GrewBefore(p: Pool, q: Pool, free: seq<nat>, last: Host, extra: seq<nat>, closed: set<nat>, c: nat,
                   name: Host, count: nat)
    requires PoolInv(q, c) && Room(q.conns, last, |extra|, c) && extra != [] && name != last
    requires GrewBy(p, q, closed, name, count)
    ensures GrewBy(p, PlaceHost(q, free, last, extra, closed, c).0, closed, name, count)
  {
    PlacedIsKnown(q, free, last, extra, closed, c);
    PlaceHostLeavesOthers(q, free, last, extra, closed, c, name);
  }

  lemma LastIsNew(names: seq<Host>)
    requires names != [] && Distinct(names)
    ensures names[|names| - 1] !in names[..|names| - 1]
  {}

  lemma LastOrBefore(names: seq<Host>, name: Host)
    requires names != [] && name in names && name != names[|names| - 1]
    ensures name in names[..|names| - 1]
  {}

  /** None of the new connections has closed already. */
  ghost predicate AllOpen(extra: seq<nat>, closed: set<nat>) {
    forall e :: e in extra ==> e !in closed
  }

  lemma {:induction false} PlacingGrowsExactly(p: Pool, free: seq<nat>, names: seq<Host>, extra: map<Host, seq<nat>>,
                                              closed: set<nat>, c: nat, name: Host)
    requires PoolInv(p, c) && Distinct(names) && AllRoom(p.conns, names, extra, c) && AllGiven(names, extra)
    requires name in names && AllOpen(extra[name], closed)
    ensures GrewBy(p, PlaceHosts(p, free, names, extra, closed, c).0, closed, name, |extra[name]|)
    decreases |names|
  {
    var before := names[..|names| - 1];
    AllButTheLast(p, names, extra, c);
    var q, rest, last := LastPlacement(p, free, names, extra, closed, c);
    if name == last {
      LastIsNew(names);
      PlacingLeavesOthers(p, free, before, extra, closed, c, name);
      GrowsNow(p, q, rest, name, extra[name], closed, c);
    } else {
      LastOrBefore(names, name);
      PlacingGrowsExactly(p, free, before, extra, closed, c, name);
      GrewBefore(p, q, rest, last, extra[last], closed, c, name, |extra[name]|);
    }
  }

  /**
   * A whole write section: every host with new connections ends up with exactly that many more open ones if it has an
   * index, and with as many as before if it has none; hosts without new connections keep exactly theirs.
   */
  lemma SyncGrowsExactly(p: Pool, followers: seq<Host>, names: seq<Host>, extra: map<Host, seq<nat>>, closed: set<nat>, c: nat,
                         name: Host)
    requires PoolInv(p, c) && Distinct(names) && AllRoom(p.conns, names, extra, c) && AllGiven(names, extra)
    requires name in names ==> AllOpen(extra[name], closed)
    ensures var q := SyncWrite(p, followers, names, extra, closed, c);
            if name in names then GrewBy(p, q, closed, name, |extra[name]|)
            else OpenKeys(q.conns, closed, name) == OpenKeys(p.conns, closed, name)
  {
    if name in names {
      PlacingGrowsExactly(p, FreeIds(UsedNodes(p.conns), |followers|), names, extra, closed, c, name);
    } else {
      PlacingLeavesOthers(p, FreeIds(UsedNodes(p.conns), |followers|), names, extra, closed, c, name);
    }
  }
}
