/** How evenly the round robin spreads calls when only some of the connections are open. */
module OpenFairness {
  import opened Bytes
  import opened Collections
  import opened FollowerPool
  import opened FollowerSync
  import opened Fairness

  ghost function OpenNodes(p: Pool, closed: set<nat>, c: nat): set<Node> {
    set nd | nd in p.history && HasOpen(p.conns, closed, c, nd)
  }

  /** `p` may have become `q` by selections: the nodes are the same and only closed connections are gone. */
  ghost predicate Later(p: Pool, q: Pool, closed: set<nat>, c: nat, order: seq<Node>) {
    && PoolInv(q, c) && Lists(order, q.history) && q.history.Keys == p.history.Keys
    && OnlyClosedDropped(p.conns, q.conns, closed)
  }

  lemma LaterKeepsOpenNodes(p: Pool, q: Pool, closed: set<nat>, c: nat, order: seq<Node>)
    requires Later(p, q, closed, c, order)
    ensures OpenNodes(q, closed, c) == OpenNodes(p, closed, c)
    ensures |q.history| == |p.history| && (Dense(p.history) ==> Dense(q.history))
  {
    forall nd ensures HasOpen(q.conns, closed, c, nd) <==> HasOpen(p.conns, closed, c, nd) {
      OpenKept(p.conns, q.conns, closed, c, nd);
    }
    assert |q.history| == |q.history.Keys| && |p.history| == |p.history.Keys|;
  }

  // ---- A selection goes to the first open node after the last one used ----

  lemma OneVisit(p: Pool, closed: set<nat>, c: nat, order: seq<Node>) returns (p1: Pool, found: Option<Key>)
    requires PoolInv(p, c) && Lists(order, p.history) && p.history != map[]
    ensures (p1, found) == Visit(p, closed, c, order) && p.last < |p.history|
    ensures p1.last == Around(p.last, 1, |p.history|) && (found.Some? ==> found.value.node == p1.last)
    ensures found.Some? <==> Reachable(p, closed, c, order, p1.last)
    ensures found.None? ==> PoolInv(p1, c) && Lists(order, p1.history) && p1.history == p.history &&
                            OnlyClosedDropped(p.conns, p1.conns, closed)
  {
    VisitKeeps(p, closed, c, order);
    var r := Visit(p, closed, c, order);
    p1, found := r.0, r.1;
  }

  lemma {:induction false} SelectFirst(p: Pool, closed: set<nat>, c: nat, order: seq<Node>, m: nat) returns (j: nat)
    requires PoolInv(p, c) && Lists(order, p.history) && m <= |p.history|
    requires Select(p, closed, c, order, m).1.Some?
    ensures 1 <= j <= m && p.last < |p.history|
    ensures var (q, found) := Select(p, closed, c, order, m);
            q.last == Around(p.last, j, |p.history|) == found.value.node
    ensures Reachable(p, closed, c, order, Around(p.last, j, |p.history|))
    ensures forall i :: 1 <= i < j ==> !Reachable(p, closed, c, order, Around(p.last, i, |p.history|))
    decreases m
  {
    var p1, found := OneVisit(p, closed, c, order);
    if found.Some? {
      j := 1;
    } else {
      var j1 := SelectFirst(p1, closed, c, order, m - 1);
      FirstFromBefore(p, p1, closed, c, order, j1);
      j := j1 + 1;
    }
  }

  /** The first open node `j` steps after an empty one is `j + 1` steps after the one before. */
  lemma FirstFromBefore(p: Pool, p1: Pool, closed: set<nat>, c: nat, order: seq<Node>, j: nat)
    requires OnlyClosedDropped(p.conns, p1.conns, closed) && p1.history == p.history && p.last < |p.history|
    requires p1.last == Around(p.last, 1, |p.history|) && !Reachable(p, closed, c, order, p1.last)
    requires 1 <= j < |p.history| && Reachable(p1, closed, c, order, Around(p1.last, j, |p.history|))
    requires forall i :: 1 <= i < j ==> !Reachable(p1, closed, c, order, Around(p1.last, i, |p.history|))
    ensures Around(p.last, j + 1, |p.history|) == Around(p1.last, j, |p.history|)
    ensures Reachable(p, closed, c, order, Around(p.last, j + 1, |p.history|))
    ensures forall i :: 1 <= i < j + 1 ==> !Reachable(p, closed, c, order, Around(p.last, i, |p.history|))
  {
    ReachableKept(p, p1, closed, c, order);
    forall i | 1 <= i < j + 1 ensures !Reachable(p, closed, c, order, Around(p.last, i, |p.history|)) {
      assert i > 1 ==> Around(p1.last, i - 1, |p.history|) == Around(p.last, i, |p.history|);
    }
  }

  // ---- The open nodes in the order in which their turn comes ----

  /** The node `i` steps on from the last one used has an open connection. */
  ghost predicate OpenAhead(p: Pool, closed: set<nat>, c: nat, nodes: seq<Node>, i: nat) {
    p.last < |nodes| && 1 <= i <= |nodes| && HasOpen(p.conns, closed, c, Ahead(p, nodes, i))
  }

  /** `turns` says how many steps on the open nodes are, in ascending order. */
  ghost predicate IsTurns(p: Pool, closed: set<nat>, c: nat, nodes: seq<Node>, turns: seq<nat>) {
    && (forall k :: 0 <= k < |turns| ==> OpenAhead(p, closed, c, nodes, turns[k]))
    && (forall i: nat :: OpenAhead(p, closed, c, nodes, i) ==> i in turns)
    && (forall i, j :: 0 <= i < j < |turns| ==> turns[i] < turns[j])
  }

  lemma TurnsExist(p: Pool, closed: set<nat>, c: nat, nodes: seq<Node>) returns (turns: seq<nat>)
    ensures IsTurns(p, closed, c, nodes, turns)
  {
    var shut := set i | 0 <= i <= |nodes| && !OpenAhead(p, closed, c, nodes, i);
    turns := FreeIds(shut, |nodes| + 1);
    FreeIdsAreFree(shut, |nodes| + 1);
    forall k | 0 <= k < |turns| ensures OpenAhead(p, closed, c, nodes, turns[k]) { assert turns[k] in turns; }
  }

  /** The nodes by their turns. */
  ghost predicate TurnOrder(p: Pool, nodes: seq<Node>, turns: seq<nat>, turnNodes: seq<Node>)
    requires p.last < |nodes|
  {
    |turnNodes| == |turns| &&
    forall i :: 0 <= i < |turns| ==> turns[i] <= |nodes| && turnNodes[i] == Ahead(p, nodes, turns[i])
  }

  lemma OpenNodeHasTurn(p: Pool, closed: set<nat>, c: nat, nodes: seq<Node>, turns: seq<nat>, nd: Node) returns (k: nat)
    requires Indexed(nodes, p.history) && p.last < |nodes| && IsTurns(p, closed, c, nodes, turns)
    requires nd in OpenNodes(p, closed, c)
    ensures k < |turns| && turns[k] <= |nodes| && Ahead(p, nodes, turns[k]) == nd
  {
    var i := AheadReaches(p, nodes, nd);
    assert OpenAhead(p, closed, c, nodes, i);
    k :| 0 <= k < |turns| && turns[k] == i;
  }

  /** Each open node has its turn exactly once in a round. */
  lemma TurnsNumberTheOpenNodes(p: Pool, closed: set<nat>, c: nat, nodes: seq<Node>)
    returns (turns: seq<nat>, turnNodes: seq<Node>)
    requires Indexed(nodes, p.history) && p.last < |nodes|
    ensures IsTurns(p, closed, c, nodes, turns) && TurnOrder(p, nodes, turns, turnNodes)
    ensures Distinct(turnNodes) && (forall nd :: nd in turnNodes <==> nd in OpenNodes(p, closed, c))
    ensures |turnNodes| == |OpenNodes(p, closed, c)|
  {
    turns := TurnsExist(p, closed, c, nodes);
    turnNodes := seq(|turns|, i requires 0 <= i < |turns| => Ahead(p, nodes, turns[i]));
    forall i, j | 0 <= i < j < |turns| ensures turnNodes[i] != turnNodes[j] {
      assert Around(p.last, turns[i], |nodes|) != Around(p.last, turns[j], |nodes|);
    }
    forall nd | nd in OpenNodes(p, closed, c) ensures nd in turnNodes {
      var k := OpenNodeHasTurn(p, closed, c, nodes, turns, nd);
      assert turnNodes[k] == nd;
    }
    DistinctSize(turnNodes);
    assert (set nd | nd in turnNodes) == OpenNodes(p, closed, c);
  }

  // ---- Calls in a row ----

  lemma ReachableIsOpen(q: Pool, closed: set<nat>, c: nat, order: seq<Node>, nodes: seq<Node>, i: nat)
    requires Indexed(nodes, q.history) && Lists(order, q.history) && i < |nodes|
    ensures Reachable(q, closed, c, order, i) <==> HasOpen(q.conns, closed, c, nodes[i])
  {
    assert nodes[i] in order;
  }

  lemma LaterIsIndexed(p: Pool, q: Pool, closed: set<nat>, c: nat, order: seq<Node>, nodes: seq<Node>)
    requires Later(p, q, closed, c, order) && Indexed(nodes, p.history)
    ensures Indexed(nodes, q.history)
  {
    assert |q.history| == |q.history.Keys| && |p.history| == |p.history.Keys|;
  }

  /** Seen from `d` steps on, the open nodes are where they were. */
  lemma OpenFromThere(p: Pool, q: Pool, closed: set<nat>, c: nat, order: seq<Node>, nodes: seq<Node>, d: nat, i: nat)
    requires Later(p, q, closed, c, order) && Indexed(nodes, p.history) && p.last < |nodes|
    requires 1 <= i && d + i <= |nodes| && q.last == Around(p.last, d, |nodes|)
    ensures q.last < |nodes| == |q.history|
    ensures Reachable(q, closed, c, order, Around(q.last, i, |nodes|)) <==> OpenAhead(p, closed, c, nodes, d + i)
  {
    LaterIsIndexed(p, q, closed, c, order, nodes);
    assert Around(q.last, i, |nodes|) == Around(p.last, d + i, |nodes|);
    ReachableIsOpen(q, closed, c, order, nodes, Around(q.last, i, |nodes|));
    OpenKept(p.conns, q.conns, closed, c, nodes[Around(q.last, i, |nodes|)]);
  }

  /** With the first open node `j` steps on, a selection goes there. */
  lemma GoesToFirst(q: Pool, closed: set<nat>, c: nat, order: seq<Node>, j: nat)
    requires PoolInv(q, c) && Lists(order, q.history) && 1 <= j <= |q.history| && q.last < |q.history|
    requires Reachable(q, closed, c, order, Around(q.last, j, |q.history|))
    requires forall i :: 1 <= i < j ==> !Reachable(q, closed, c, order, Around(q.last, i, |q.history|))
    ensures var (q', found) := Select(q, closed, c, order, |q.history|);
            found.Some? && q'.last == Around(q.last, j, |q.history|) == found.value.node
  {
    SelectExact(q, closed, c, order);
    var first := SelectFirst(q, closed, c, order, |q.history|);
    assert first == j;
  }

  lemma SelectIsLater(p: Pool, q: Pool, closed: set<nat>, c: nat, order: seq<Node>)
    requires Later(p, q, closed, c, order)
    ensures var (q', found) := Select(q, closed, c, order, |q.history|);
            Later(p, q', closed, c, order) && (found.Some? ==> OpenAt(p.conns, closed, found.value))
  {
    SelectKeeps(q, closed, c, order, |q.history|);
    var (q', found) := Select(q, closed, c, order, |q.history|);
    forall k | OpenAt(p.conns, closed, k) ensures k in q'.conns { assert OpenAt(q.conns, closed, k); }
  }

  lemma NodeByIndex(p: Pool, c: nat, nodes: seq<Node>, k: Key)
    requires PoolInv(p, c) && Indexed(nodes, p.history) && k in p.conns
    ensures k.node < |nodes| && NodeOf(k) == nodes[k.node]
  {}

  /** From `d` steps into the round, the next call goes to the next open index, `e` steps into it. */
  lemma NextIndex(p: Pool, q: Pool, closed: set<nat>, c: nat, order: seq<Node>, nodes: seq<Node>, d: nat, e: nat)
    requires Later(p, q, closed, c, order) && Indexed(nodes, p.history) && p.last < |nodes|
    requires d < e && OpenAhead(p, closed, c, nodes, e) && q.last == Around(p.last, d, |nodes|)
    requires forall i :: d < i < e ==> !OpenAhead(p, closed, c, nodes, i)
    ensures var (q', found) := Select(q, closed, c, order, |q.history|);
            found.Some? && q'.last == Around(p.last, e, |nodes|) == found.value.node
  {
    OpenFromThere(p, q, closed, c, order, nodes, d, e - d);
    forall i | 1 <= i < e - d ensures !Reachable(q, closed, c, order, Around(q.last, i, |q.history|)) {
      OpenFromThere(p, q, closed, c, order, nodes, d, i);
    }
    GoesToFirst(q, closed, c, order, e - d);
  }

  /** It returns an open connection of the node with that index. */
  lemma NextTurn(p: Pool, q: Pool, closed: set<nat>, c: nat, order: seq<Node>, nodes: seq<Node>, d: nat, e: nat)
    returns (q': Pool, found: Option<Key>)
    requires PoolInv(p, c) && Later(p, q, closed, c, order) && Indexed(nodes, p.history) && p.last < |nodes|
    requires d < e && OpenAhead(p, closed, c, nodes, e) && q.last == Around(p.last, d, |nodes|)
    requires forall i :: d < i < e ==> !OpenAhead(p, closed, c, nodes, i)
    ensures (q', found) == Select(q, closed, c, order, |q.history|)
    ensures Later(p, q', closed, c, order) && q'.last == Around(p.last, e, |nodes|)
    ensures found.Some? && NodeOf(found.value) == Ahead(p, nodes, e) && OpenAt(p.conns, closed, found.value)
  {
    NextIndex(p, q, closed, c, order, nodes, d, e);
    SelectIsLater(p, q, closed, c, order);
    var r := Select(q, closed, c, order, |q.history|);
    q', found := r.0, r.1;
    NodeByIndex(p, c, nodes, found.value);
  }

  /** How far into the round `k` calls get. */
  ghost function Reached(turns: seq<nat>, k: nat): nat
    requires k <= |turns|
  {
    if k == 0 then 0 else turns[k - 1]
  }

  /** Every call so far returned an open connection of the node whose turn it was. */
  ghost predicate TookTurns(keys: seq<Option<Key>>, conns: map<Key, nat>, closed: set<nat>, turnNodes: seq<Node>) {
    |keys| <= |turnNodes| &&
    forall i :: 0 <= i < |keys| ==>
      keys[i].Some? && NodeOf(keys[i].value) == turnNodes[i] && OpenAt(conns, closed, keys[i].value)
  }

  lemma NothingBetween(p: Pool, closed: set<nat>, c: nat, nodes: seq<Node>, turns: seq<nat>, k: nat)
    requires IsTurns(p, closed, c, nodes, turns) && k < |turns|
    ensures Reached(turns, k) < turns[k] && OpenAhead(p, closed, c, nodes, turns[k])
    ensures forall i :: Reached(turns, k) < i < turns[k] ==> !OpenAhead(p, closed, c, nodes, i)
  {
    assert forall j :: 0 <= j < |turns| ==> turns[j] <= Reached(turns, k) || turns[j] >= turns[k];
  }

  /** Where `k` calls have got to. */
  ghost predicate Progress(p: Pool, q: Pool, keys: seq<Option<Key>>, closed: set<nat>, c: nat, order: seq<Node>,
                           nodes: seq<Node>, turns: seq<nat>, turnNodes: seq<Node>, k: nat)
  {
    && |keys| == k <= |turns| && TookTurns(keys, p.conns, closed, turnNodes) && Later(p, q, closed, c, order)
    && p.last < |nodes| && Reached(turns, k) <= |nodes| && q.last == Around(p.last, Reached(turns, k), |nodes|)
  }

  lemma OneMoreCall(p: Pool, q: Pool, keys: seq<Option<Key>>, closed: set<nat>, c: nat, order: seq<Node>,
                    nodes: seq<Node>, turns: seq<nat>, turnNodes: seq<Node>, k: nat)
    returns (q': Pool, found: Option<Key>)
    requires PoolInv(p, c) && Indexed(nodes, p.history) && p.last < |nodes| && k < |turnNodes|
    requires IsTurns(p, closed, c, nodes, turns) && TurnOrder(p, nodes, turns, turnNodes)
    requires Progress(p, q, keys, closed, c, order, nodes, turns, turnNodes, k)
    ensures (q', found) == Select(q, closed, c, order, |q.history|)
    ensures Progress(p, q', keys + [found], closed, c, order, nodes, turns, turnNodes, k + 1)
  {
    NothingBetween(p, closed, c, nodes, turns, k);
    q', found := NextTurn(p, q, closed, c, order, nodes, Reached(turns, k), turns[k]);
    OneMoreTurn(keys, found, p.conns, closed, turnNodes);
  }

  lemma OneMoreTurn(keys: seq<Option<Key>>, found: Option<Key>, conns: map<Key, nat>, closed: set<nat>, turnNodes: seq<Node>)
    requires TookTurns(keys, conns, closed, turnNodes) && |keys| < |turnNodes|
    requires found.Some? && NodeOf(found.value) == turnNodes[|keys|] && OpenAt(conns, closed, found.value)
    ensures TookTurns(keys + [found], conns, closed, turnNodes)
  {}

  lemma {:induction false} CallsTakeTurns(p: Pool, closed: set<nat>, c: nat, order: seq<Node>, nodes: seq<Node>,
                                         turns: seq<nat>, turnNodes: seq<Node>, k: nat)
    returns (q: Pool, keys: seq<Option<Key>>)
    requires Lists(order, p.history) && PoolInv(p, c) && Indexed(nodes, p.history) && p.last < |nodes|
    requires IsTurns(p, closed, c, nodes, turns) && TurnOrder(p, nodes, turns, turnNodes) && k <= |turnNodes|
    ensures Calls(p, closed, c, order, k) == (q, keys)
    ensures Progress(p, q, keys, closed, c, order, nodes, turns, turnNodes, k)
    decreases k
  {
    if k == 0 {
      q, keys := p, [];
    } else {
      var q0, keys0 := CallsTakeTurns(p, closed, c, order, nodes, turns, turnNodes, k - 1);
      var q', found := OneMoreCall(p, q0, keys0, closed, c, order, nodes, turns, turnNodes, k - 1);
      CallsStep(p, closed, c, order, k - 1, q0, keys0, q', found);
      q, keys := q', keys0 + [found];
    }
  }

  /** The calls returned open connections, one of each of the nodes. */
  ghost predicate OneOfEach(keys: seq<Option<Key>>, conns: map<Key, nat>, closed: set<nat>, nodes: set<Node>) {
    && (forall i :: 0 <= i < |keys| ==>
          keys[i].Some? && OpenAt(conns, closed, keys[i].value) && NodeOf(keys[i].value) in nodes)
    && (forall i, j :: 0 <= i < j < |keys| && keys[i].Some? && keys[j].Some? ==>
          NodeOf(keys[i].value) != NodeOf(keys[j].value))
    && (forall nd :: nd in nodes ==> exists i :: 0 <= i < |keys| && keys[i].Some? && NodeOf(keys[i].value) == nd)
  }

  /**
   * Fairness whatever is open: with dense indices, if m nodes have an open connection, any m calls in a row return an
   * open connection of each of them, exactly once each; and afterwards the same holds again.
   */
  lemma EachOpenNodeOnce(p: Pool, closed: set<nat>, c: nat, order: seq<Node>, m: nat)
    requires PoolInv(p, c) && Dense(p.history) && Lists(order, p.history)
    requires m == |OpenNodes(p, closed, c)|
    ensures var (q, keys) := Calls(p, closed, c, order, m);
            && OneOfEach(keys, p.conns, closed, OpenNodes(p, closed, c))
            && PoolInv(q, c) && Dense(q.history) && Lists(order, q.history)
            && OpenNodes(q, closed, c) == OpenNodes(p, closed, c)
  {
    if p.history == map[] {
      assert OpenNodes(p, closed, c) == {};
    } else {
      var nodes := DenseIsIndexed(p.history);
      var turns, turnNodes := TurnsNumberTheOpenNodes(p, closed, c, nodes);
      var q, keys := CallsTakeTurns(p, closed, c, order, nodes, turns, turnNodes, m);
      LaterKeepsOpenNodes(p, q, closed, c, order);
      TurnsGiveOneEach(p, keys, closed, c, turnNodes);
    }
  }

  lemma TurnsGiveOneEach(p: Pool, keys: seq<Option<Key>>, closed: set<nat>, c: nat, turnNodes: seq<Node>)
    requires Distinct(turnNodes) && |keys| == |turnNodes| && forall nd :: nd in turnNodes <==> nd in OpenNodes(p, closed, c)
    requires TookTurns(keys, p.conns, closed, turnNodes)
    ensures OneOfEach(keys, p.conns, closed, OpenNodes(p, closed, c))
  {
    forall i | 0 <= i < |keys| ensures NodeOf(keys[i].value) in OpenNodes(p, closed, c) {
      assert turnNodes[i] in turnNodes;
    }
    forall nd | nd in OpenNodes(p, closed, c)
      ensures exists i :: 0 <= i < |keys| && keys[i].Some? && NodeOf(keys[i].value) == nd
    {
      var i :| 0 <= i < |turnNodes| && turnNodes[i] == nd;
      assert NodeOf(keys[i].value) == nd;
    }
  }
}
