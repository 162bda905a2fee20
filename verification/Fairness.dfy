/** How evenly the round robin spreads calls over a fully connected pool. */
module Fairness {
  import opened Bytes
  import opened Collections
  import opened FollowerPool

  /** The nodes of the history by index: indices are exactly 0..n-1. */
  ghost predicate Indexed(nodes: seq<Node>, history: map<Node, nat>) {
    && |nodes| == |history|
    && (forall i :: 0 <= i < |nodes| ==> nodes[i] in history && nodes[i].index == i)
    && (forall nd :: nd in history ==> nd.index < |nodes| && nodes[nd.index] == nd)
  }

  /** Every node has all its `c` connections, all open. */
  ghost predicate Full(p: Pool, closed: set<nat>, c: nat, nodes: seq<Node>) {
    && PoolInv(p, c) && Indexed(nodes, p.history) && nodes != [] && c > 0
    && (forall nd, slot :: nd in p.history && 0 <= slot < c ==> OpenAt(p.conns, closed, KeyAt(nd, slot)))
  }

  /** The pool and the connections returned after `m` selections in a row. */
  function Calls(p: Pool, closed: set<nat>, c: nat, order: seq<Node>, m: nat): (r: (Pool, seq<Option<Key>>))
    requires forall nd :: nd in order ==> nd in p.history
    ensures forall nd :: nd in order ==> nd in r.0.history
    ensures |r.1| == m
  {
    if m == 0 then (p, [])
    else
      var (q, keys) := Calls(p, closed, c, order, m - 1);
      var (q', k) := Select(q, closed, c, order, |q.history|);
      SelectHistory(q, closed, c, order, |q.history|);
      (q', keys + [k])
  }

  lemma {:induction false} SelectHistory(p: Pool, closed: set<nat>, c: nat, order: seq<Node>, n: nat)
    requires forall nd :: nd in order ==> nd in p.history
    ensures Select(p, closed, c, order, n).0.history.Keys >= p.history.Keys
    decreases n
  {
    if n > 0 && Visit(p, closed, c, order).1.None? {
      SelectHistory(Visit(p, closed, c, order).0, closed, c, order, n - 1);
    }
  }

  lemma {:induction false} CallsSplit(p: Pool, closed: set<nat>, c: nat, order: seq<Node>, a: nat, b: nat)
    requires forall nd :: nd in order ==> nd in p.history
    ensures var q := Calls(p, closed, c, order, a).0;
            && Calls(p, closed, c, order, a + b).0 == Calls(q, closed, c, order, b).0
            && Calls(p, closed, c, order, a + b).1 ==
               Calls(p, closed, c, order, a).1 + Calls(q, closed, c, order, b).1
    decreases b
  {
    if b > 0 {
      CallsSplit(p, closed, c, order, a, b - 1);
    }
  }

  // ---- Dense indices are a numbering ----

  lemma {:induction false} IndicesCount(nodes: set<Node>, used: set<nat>)
    requires forall a, b :: a in nodes && b in nodes && a.index == b.index ==> a == b
    requires used == set nd | nd in nodes :: nd.index
    ensures |used| == |nodes|
    decreases nodes
  {
    if nodes != {} {
      var nd :| nd in nodes;
      var rest := nodes - {nd};
      assert used - {nd.index} == set x | x in rest :: x.index;
      IndicesCount(rest, used - {nd.index});
    }
  }

  lemma EveryIndexIsUsed(history: map<Node, nat>, i: nat) returns (nd: Node)
    requires Dense(history) && i < |history|
    ensures nd in history && nd.index == i
  {
    var used := set x | x in history :: x.index;
    IndicesCount(history.Keys, used);
    SubsetSize(used, Below(|history|));
    assert i in Below(|history|);
    nd :| nd in history && nd.index == i;
  }

  lemma DenseIsIndexed(history: map<Node, nat>) returns (nodes: seq<Node>)
    requires Dense(history)
    ensures Indexed(nodes, history)
  {
    nodes := [];
    while |nodes| < |history|
      invariant |nodes| <= |history|
      invariant forall i :: 0 <= i < |nodes| ==> nodes[i] in history && nodes[i].index == i
    {
      var nd := EveryIndexIsUsed(history, |nodes|);
      nodes := nodes + [nd];
    }
  }

  // ---- One call, one round, all rounds ----

  /** On a full pool a visit goes to the next node and takes the connection its cursor points at. */
  lemma VisitOnFull(p: Pool, closed: set<nat>, c: nat, order: seq<Node>, nodes: seq<Node>)
    requires Full(p, closed, c, nodes) && Lists(order, p.history)
    ensures var nd := nodes[Succ(p.last, |nodes|)];
            Visit(p, closed, c, order) ==
              (Pool(p.conns, p.history[nd := Succ(p.history[nd], c)], nd.index), Some(KeyAt(nd, p.history[nd])))
  {
    var nd := nodes[Succ(p.last, |nodes|)];
    assert nd in order && FirstAt(order, nd.index) == Some(nd);
    assert OpenAt(p.conns, closed, KeyAt(nd, p.history[nd]));
  }

  lemma CursorMoves(p: Pool, p': Pool, closed: set<nat>, c: nat, nodes: seq<Node>, nd: Node)
    requires Full(p, closed, c, nodes) && nd in p.history
    requires p' == Pool(p.conns, p.history[nd := Succ(p.history[nd], c)], nd.index)
    ensures Full(p', closed, c, nodes) && p'.history.Keys == p.history.Keys
  {
    assert p'.history.Keys == p.history.Keys;
    assert |p'.history| == |p'.history.Keys| == |p.history.Keys|;
  }

  /** The node that is `i` on from the last one used. */
  ghost function Ahead(p: Pool, nodes: seq<Node>, i: nat): Node
    requires p.last < |nodes| && i <= |nodes|
  {
    nodes[Around(p.last, i, |nodes|)]
  }

  /** The state `j` calls into a round that started at `p`: the first `j` nodes have moved on by one connection. */
  ghost predicate IntoRound(p: Pool, q: Pool, keys: seq<Option<Key>>, c: nat, nodes: seq<Node>, j: nat)
    requires Indexed(nodes, p.history) && p.last < |nodes| && j <= |nodes|
  {
    && q.conns == p.conns && q.history.Keys == p.history.Keys && |keys| == j
    && q.last == Around(p.last, j, |nodes|)
    && (forall i :: 1 <= i <= j ==> keys[i - 1] == Some(KeyAt(Ahead(p, nodes, i), p.history[Ahead(p, nodes, i)])))
    && (forall i :: 1 <= i <= j ==> q.history[Ahead(p, nodes, i)] == Succ(p.history[Ahead(p, nodes, i)], c))
    && (forall i :: j < i <= |nodes| ==> q.history[Ahead(p, nodes, i)] == p.history[Ahead(p, nodes, i)])
  }

  lemma RoundStep(p: Pool, q: Pool, keys: seq<Option<Key>>, q': Pool, k: Option<Key>, c: nat, nodes: seq<Node>, j: nat)
    requires Indexed(nodes, p.history) && p.last < |nodes| && 0 < j <= |nodes|
    requires IntoRound(p, q, keys, c, nodes, j - 1)
    requires var nd := Ahead(p, nodes, j);
             q' == Pool(q.conns, q.history[nd := Succ(q.history[nd], c)], nd.index) && k == Some(KeyAt(nd, q.history[nd]))
    ensures IntoRound(p, q', keys + [k], c, nodes, j)
  {
    var nd := Ahead(p, nodes, j);
    forall i | 1 <= i <= |nodes| && i != j ensures Ahead(p, nodes, i) != nd && q'.history[Ahead(p, nodes, i)] == q.history[Ahead(p, nodes, i)] {
      assert Around(p.last, i, |nodes|) != Around(p.last, j, |nodes|);
    }
    assert q'.history.Keys == q.history.Keys;
  }

  lemma CallsStep(p: Pool, closed: set<nat>, c: nat, order: seq<Node>, j: nat, q: Pool, keys: seq<Option<Key>>,
                  q': Pool, k: Option<Key>)
    requires (forall nd :: nd in order ==> nd in p.history) && (forall nd :: nd in order ==> nd in q.history)
    requires Calls(p, closed, c, order, j) == (q, keys) && Select(q, closed, c, order, |q.history|) == (q', k)
    ensures Calls(p, closed, c, order, j + 1) == (q', keys + [k])
  {}

  lemma NextAhead(p: Pool, q: Pool, nodes: seq<Node>, j: nat)
    requires p.last < |nodes| && 0 < j <= |nodes| && q.last == Around(p.last, j - 1, |nodes|)
    ensures nodes[Succ(q.last, |nodes|)] == Ahead(p, nodes, j)
  {}

  lemma {:induction false} RoundOnFull(p: Pool, closed: set<nat>, c: nat, order: seq<Node>, nodes: seq<Node>, j: nat)
    returns (q: Pool, keys: seq<Option<Key>>)
    requires Full(p, closed, c, nodes) && Lists(order, p.history) && j <= |nodes|
    ensures p.last < |nodes| && Calls(p, closed, c, order, j) == (q, keys)
    ensures Full(q, closed, c, nodes) && Lists(order, q.history) && IntoRound(p, q, keys, c, nodes, j)
    decreases j
  {
    if j == 0 {
      q, keys := p, [];
    } else {
      var q0, keys0 := RoundOnFull(p, closed, c, order, nodes, j - 1);
      NextAhead(p, q0, nodes, j);
      var q', k := CallOnFull(q0, closed, c, order, nodes, Ahead(p, nodes, j));
      RoundStep(p, q0, keys0, q', k, c, nodes, j);
      CallsStep(p, closed, c, order, j - 1, q0, keys0, q', k);
      q, keys := q', keys0 + [k];
    }
  }

  lemma CallOnFull(q: Pool, closed: set<nat>, c: nat, order: seq<Node>, nodes: seq<Node>, nd: Node)
    returns (q': Pool, k: Option<Key>)
    requires Full(q, closed, c, nodes) && Lists(order, q.history) && nd == nodes[Succ(q.last, |nodes|)]
    ensures Select(q, closed, c, order, |q.history|) == (q', k)
    ensures q' == Pool(q.conns, q.history[nd := Succ(q.history[nd], c)], nd.index) && k == Some(KeyAt(nd, q.history[nd]))
    ensures Full(q', closed, c, nodes) && Lists(order, q'.history)
  {
    VisitOnFull(q, closed, c, order, nodes);
    var r := Visit(q, closed, c, order);
    q', k := r.0, r.1;
    CursorMoves(q, q', closed, c, nodes, nd);
  }

  /** The connection that the cursor of every node points at, each once, and nothing else. */
  ghost predicate OneEach(keys: seq<Option<Key>>, history: map<Node, nat>) {
    && Distinct(keys) && None !in keys
    && forall k :: Some(k) in keys <==> NodeOf(k) in history && k.slot == history[NodeOf(k)]
  }

  lemma AheadReaches(p: Pool, nodes: seq<Node>, nd: Node) returns (i: nat)
    requires Indexed(nodes, p.history) && p.last < |nodes| && nd in p.history
    ensures 1 <= i <= |nodes| && Ahead(p, nodes, i) == nd
  {
    var j := AroundCovers(p.last, nd.index, |nodes|);
    i := if j == 0 then |nodes| else j;
  }

  lemma RoundIsOneEach(p: Pool, q: Pool, keys: seq<Option<Key>>, c: nat, nodes: seq<Node>)
    requires Indexed(nodes, p.history) && p.last < |nodes| && IntoRound(p, q, keys, c, nodes, |nodes|)
    ensures OneEach(keys, p.history) && q.last == p.last
    ensures forall nd :: nd in p.history ==> q.history[nd] == Succ(p.history[nd], c)
  {
    var n := |nodes|;
    forall i, j | 0 <= i < j < n ensures keys[i] != keys[j] {
      assert keys[i] == Some(KeyAt(Ahead(p, nodes, i + 1), p.history[Ahead(p, nodes, i + 1)]));
      assert keys[j] == Some(KeyAt(Ahead(p, nodes, j + 1), p.history[Ahead(p, nodes, j + 1)]));
      assert Around(p.last, i + 1, n) != Around(p.last, j + 1, n);
    }
    forall nd | nd in p.history
      ensures q.history[nd] == Succ(p.history[nd], c) && Some(KeyAt(nd, p.history[nd])) in keys
    {
      var i := AheadReaches(p, nodes, nd);
      assert keys[i - 1] == Some(KeyAt(nd, p.history[nd]));
    }
    forall k | Some(k) in keys ensures NodeOf(k) in p.history && k.slot == p.history[NodeOf(k)] {
      var i :| 0 <= i < n && keys[i] == Some(k);
      assert keys[i] == Some(KeyAt(Ahead(p, nodes, i + 1), p.history[Ahead(p, nodes, i + 1)]));
    }
    forall x | x in keys ensures x.Some? {
      var i :| 0 <= i < n && keys[i] == x;
      assert keys[i] == Some(KeyAt(Ahead(p, nodes, i + 1), p.history[Ahead(p, nodes, i + 1)]));
    }
    forall k | NodeOf(k) in p.history && k.slot == p.history[NodeOf(k)] ensures Some(k) in keys {
      assert k == KeyAt(NodeOf(k), p.history[NodeOf(k)]);
    }
  }

  /** The first `v` connections of every node from its cursor on, each once, and nothing else. */
  ghost predicate FirstEach(keys: seq<Option<Key>>, history: map<Node, nat>, c: nat, v: nat)
    requires v <= c && forall nd :: nd in history ==> history[nd] < c
  {
    && Distinct(keys) && None !in keys
    && forall k :: Some(k) in keys <==> NodeOf(k) in history && Turn(k.slot, history[NodeOf(k)], c, v)
  }

  /** `slot` comes up in the first `v` turns of a cursor at `start`. */
  ghost predicate Turn(slot: nat, start: nat, c: nat, v: nat)
    requires start < c && v <= c
  {
    exists u :: 0 <= u < v && Around(start, u, c) == slot
  }

  lemma TurnStep(slot: nat, start: nat, c: nat, v: nat)
    requires start < c && v < c
    ensures Turn(slot, start, c, v + 1) <==> Turn(slot, start, c, v) || slot == Around(start, v, c)
    ensures slot == Around(start, v, c) ==> !Turn(slot, start, c, v)
  {}

  lemma FirstEachStep(keys: seq<Option<Key>>, more: seq<Option<Key>>, h: map<Node, nat>, h': map<Node, nat>, c: nat, v: nat)
    requires v < c && h'.Keys == h.Keys
    requires forall nd :: nd in h ==> h[nd] < c && h'[nd] == Around(h[nd], v, c)
    requires FirstEach(keys, h, c, v) && OneEach(more, h')
    ensures FirstEach(keys + more, h, c, v + 1)
  {
    forall k ensures Some(k) in keys + more <==> NodeOf(k) in h && Turn(k.slot, h[NodeOf(k)], c, v + 1) {
      assert Some(k) in keys + more <==> Some(k) in keys || Some(k) in more;
      if NodeOf(k) in h { TurnStep(k.slot, h[NodeOf(k)], c, v); }
    }
    forall x | x in keys && x in more ensures false {
      if x.Some? {
        TurnStep(x.value.slot, h[NodeOf(x.value)], c, v);
      }
    }
    var all := keys + more;
    forall i, j | 0 <= i < j < |all| ensures all[i] != all[j] {
      if i < |keys| <= j {
        assert all[i] in keys && all[j] in more;
      }
    }
  }

  /** `v` rounds of `n` calls. */
  function Rounds(n: nat, v: nat): nat {
    if v == 0 then 0 else Rounds(n, v - 1) + n
  }

  lemma {:induction false} RoundsProduct(n: nat, v: nat)
    ensures Rounds(n, v) == n * v
  {
    if v > 0 {
      RoundsProduct(n, v - 1);
      assert n * v == n * (v - 1) + n;
    }
  }

  /** `v` rounds of `n` calls, round by round. */
  function CallsInRounds(p: Pool, closed: set<nat>, c: nat, order: seq<Node>, n: nat, v: nat): (r: (Pool, seq<Option<Key>>))
    requires forall nd :: nd in order ==> nd in p.history
    ensures forall nd :: nd in order ==> nd in r.0.history
    decreases v
  {
    if v == 0 then (p, [])
    else
      var before := CallsInRounds(p, closed, c, order, n, v - 1);
      var round := Calls(before.0, closed, c, order, n);
      (round.0, before.1 + round.1)
  }

  lemma {:induction false} RoundsAreCalls(p: Pool, closed: set<nat>, c: nat, order: seq<Node>, n: nat, v: nat)
    requires forall nd :: nd in order ==> nd in p.history
    ensures CallsInRounds(p, closed, c, order, n, v) == Calls(p, closed, c, order, Rounds(n, v))
    decreases v
  {
    if v > 0 {
      RoundsAreCalls(p, closed, c, order, n, v - 1);
      CallsSplit(p, closed, c, order, Rounds(n, v - 1), n);
    }
  }

  /** After `v` rounds every cursor has moved `v` on, and the calls have gone to the first `v` connections of each. */
  ghost predicate AfterRounds(p: Pool, q: Pool, keys: seq<Option<Key>>, closed: set<nat>, c: nat, order: seq<Node>,
                              nodes: seq<Node>, v: nat)
    requires Full(p, closed, c, nodes) && v <= c
  {
    && Full(q, closed, c, nodes) && Lists(order, q.history) && q.history.Keys == p.history.Keys
    && (forall nd :: nd in p.history ==> q.history[nd] == Around(p.history[nd], v, c))
    && FirstEach(keys, p.history, c, v)
  }

  lemma OneMoreRound(p: Pool, q: Pool, keys: seq<Option<Key>>, closed: set<nat>, c: nat, order: seq<Node>,
                     nodes: seq<Node>, v: nat) returns (q': Pool, keys': seq<Option<Key>>)
    requires Full(p, closed, c, nodes) && v < c && AfterRounds(p, q, keys, closed, c, order, nodes, v)
    ensures q' == Calls(q, closed, c, order, |nodes|).0 && keys' == keys + Calls(q, closed, c, order, |nodes|).1
    ensures AfterRounds(p, q', keys', closed, c, order, nodes, v + 1)
  {
    var q1, round := RoundOnFull(q, closed, c, order, nodes, |nodes|);
    q', keys' := q1, keys + round;
    RoundIsOneEach(q, q', round, c, nodes);
    FirstEachStep(keys, round, p.history, q.history, c, v);
  }

  lemma NoRounds(p: Pool, closed: set<nat>, c: nat, order: seq<Node>, nodes: seq<Node>)
    requires Full(p, closed, c, nodes) && Lists(order, p.history)
    ensures AfterRounds(p, p, [], closed, c, order, nodes, 0)
  {}

  lemma CallsInRoundsStep(p: Pool, closed: set<nat>, c: nat, order: seq<Node>, n: nat, v: nat, q: Pool, keys: seq<Option<Key>>)
    requires (forall nd :: nd in order ==> nd in p.history) && (forall nd :: nd in order ==> nd in q.history)
    requires CallsInRounds(p, closed, c, order, n, v) == (q, keys)
    ensures CallsInRounds(p, closed, c, order, n, v + 1) ==
            (Calls(q, closed, c, order, n).0, keys + Calls(q, closed, c, order, n).1)
  {}

  lemma {:induction false} RoundsOnFull(p: Pool, closed: set<nat>, c: nat, order: seq<Node>, nodes: seq<Node>, v: nat)
    returns (q: Pool, keys: seq<Option<Key>>)
    requires Full(p, closed, c, nodes) && Lists(order, p.history) && v <= c
    ensures CallsInRounds(p, closed, c, order, |nodes|, v) == (q, keys)
    ensures AfterRounds(p, q, keys, closed, c, order, nodes, v)
    decreases v
  {
    if v == 0 {
      q, keys := p, [];
      NoRounds(p, closed, c, order, nodes);
    } else {
      var q0, keys0 := RoundsOnFull(p, closed, c, order, nodes, v - 1);
      CallsInRoundsStep(p, closed, c, order, |nodes|, v - 1, q0, keys0);
      q, keys := OneMoreRound(p, q0, keys0, closed, c, order, nodes, v - 1);
    }
  }

  lemma AllTurnsAreAllSlots(p: Pool, closed: set<nat>, c: nat, nodes: seq<Node>, k: Key)
    requires Full(p, closed, c, nodes)
    ensures k in p.conns <==> NodeOf(k) in p.history && Turn(k.slot, p.history[NodeOf(k)], c, c)
  {
    if NodeOf(k) in p.history && k.slot < c {
      var u := AroundCovers(p.history[NodeOf(k)], k.slot, c);
      assert OpenAt(p.conns, closed, KeyAt(NodeOf(k), k.slot));
    }
  }

  /**
   * Exact fairness: on a full pool of n nodes with c connections each, n * c calls in a row return every pooled
   * connection exactly once, and n calls in a row return one connection of every node.
   */
  lemma ExactFairness(p: Pool, closed: set<nat>, c: nat, order: seq<Node>, m: nat)
    requires PoolInv(p, c) && Dense(p.history) && Lists(order, p.history) && p.history != map[] && c > 0
    requires forall nd, slot :: nd in p.history && 0 <= slot < c ==> OpenAt(p.conns, closed, KeyAt(nd, slot))
    requires m == |p.history| * c
    ensures var keys := Calls(p, closed, c, order, m).1;
            Distinct(keys) && None !in keys && forall k :: Some(k) in keys <==> k in p.conns
    ensures OneEach(Calls(p, closed, c, order, |p.history|).1, p.history)
  {
    var nodes := DenseIsIndexed(p.history);
    RoundsProduct(|nodes|, c);
    var end, keys := RoundsOnFull(p, closed, c, order, nodes, c);
    RoundsAreCalls(p, closed, c, order, |nodes|, c);
    forall k ensures Some(k) in Calls(p, closed, c, order, m).1 <==> k in p.conns {
      AllTurnsAreAllSlots(p, closed, c, nodes, k);
    }
    var q, round := RoundOnFull(p, closed, c, order, nodes, |nodes|);
    RoundIsOneEach(p, q, round, c, nodes);
  }
}
