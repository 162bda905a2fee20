/** The pool of follower connections and the round robin over it. */
module FollowerPool {
  import opened Bytes

  type Host = string

  /** A pooled connection's place: host name, node index, connection index. */
  datatype Key = Key(name: Host, node: nat, slot: nat)
  datatype Node = Node(name: Host, index: nat)

  function NodeOf(k: Key): Node { Node(k.name, k.node) }
  function KeyAt(nd: Node, slot: nat): Key { Key(nd.name, nd.index, slot) }

  /** Connections (by number), the next connection index of every node ever pooled, and the last node used. */
  datatype Pool = Pool(conns: map<Key, nat>, history: map<Node, nat>, last: nat)

  const EMPTY := Pool(map[], map[], 0)

  /** What holds of the pool in every reachable state; `c` is the number of connections per node. */
  ghost predicate PoolInv(p: Pool, c: nat) {
    && (forall k :: k in p.conns ==> k.slot < c && NodeOf(k) in p.history)
    && (forall nd :: nd in p.history ==> p.history[nd] < c)
    && (forall a, b :: a in p.history && b in p.history && a.name == b.name ==> a == b)
    && (p.last == 0 || p.last < |p.history|)
  }

  /** No connection is pooled in two places. */
  ghost predicate OnePlaceEach(conns: map<Key, nat>) {
    forall a, b :: a in conns && b in conns && conns[a] == conns[b] ==> a == b
  }

  predicate OpenAt(conns: map<Key, nat>, closed: set<nat>, k: Key) {
    k in conns && conns[k] !in closed
  }

  predicate HasOpen(conns: map<Key, nat>, closed: set<nat>, c: nat, nd: Node) {
    exists slot | 0 <= slot < c :: OpenAt(conns, closed, KeyAt(nd, slot))
  }

  // ---- One visit of a node, as one section under the lock ----

  function Succ(i: nat, n: nat): nat { if i + 1 >= n then 0 else i + 1 }

  /** `i` steps on from `start` around a circle of `n`. */
  function Around(start: nat, i: nat, n: nat): nat
    requires start < n && i <= n
  {
    if start + i < n then start + i else start + i - n
  }

  /** Tries `tries` slots of a node from `slot` on, dropping closed connections, up to the first open one. */
  function ScanSlots(conns: map<Key, nat>, closed: set<nat>, c: nat, nd: Node, slot: nat, tries: nat)
    : (Option<nat>, map<Key, nat>)
    decreases tries
  {
    var key := KeyAt(nd, slot);
    if tries == 0 then (None, conns)
    else if key !in conns then ScanSlots(conns, closed, c, nd, Succ(slot, c), tries - 1)
    else if conns[key] in closed then ScanSlots(conns - {key}, closed, c, nd, Succ(slot, c), tries - 1)
    else (Some(slot), conns)
  }

  /** The first node in iteration order that has the index. */
  function FirstAt(order: seq<Node>, index: nat): (r: Option<Node>)
    ensures r.Some? ==> r.value in order && r.value.index == index
    ensures r.None? ==> forall nd :: nd in order ==> nd.index != index
  {
    if order == [] then None
    else if order[0].index == index then Some(order[0])
    else FirstAt(order[1..], index)
  }

  /** `order` is an iteration order of the history. */
  ghost predicate Lists(order: seq<Node>, history: map<Node, nat>) {
    forall nd :: nd in order <==> nd in history
  }

  function Visit(p: Pool, closed: set<nat>, c: nat, order: seq<Node>): (Pool, Option<Key>)
    requires forall nd :: nd in order ==> nd in p.history
  {
    var next := Succ(p.last, |p.history|);
    match FirstAt(order, next)
    case None => (p.(last := next), None)
    case Some(nd) =>
      var start := if p.history[nd] >= c then 0 else p.history[nd];
      var (found, conns) := ScanSlots(p.conns, closed, c, nd, start, c);
      match found
      case None => (Pool(conns, p.history, next), None)
      case Some(slot) => (Pool(conns, p.history[nd := Succ(slot, c)], nd.index), Some(KeyAt(nd, slot)))
  }

  /** Up to `n` visits, until one finds a connection. */
  function Select(p: Pool, closed: set<nat>, c: nat, order: seq<Node>, n: nat): (Pool, Option<Key>)
    requires forall nd :: nd in order ==> nd in p.history
    decreases n
  {
    if n == 0 then (p, None)
    else
      var (p', found) := Visit(p, closed, c, order);
      if found.Some? then (p', found) else Select(p', closed, c, order, n - 1)
  }

  // ---- The imperative form ----

  class Balancer {
    const c: nat
    var conns: map<Key, nat>
    var history: map<Node, nat>
    var last: nat

    constructor (c: nat)
      ensures State() == EMPTY && this.c == c && PoolInv(State(), c)
    {
      this.c, conns, history, last := c, map[], map[], 0;
    }

    function State(): Pool
      reads this
    {
      Pool(conns, history, last)
    }

    /** One pass of the outer loop: moves to the next node and tries its connections. */
    method VisitNode(closed: set<nat>, order: seq<Node>) returns (found: Option<Key>)
      requires PoolInv(State(), c) && Lists(order, history)
      modifies this
      ensures (State(), found) == Visit(old(State()), closed, c, order)
    {
      var next := last + 1;
      if next >= |history| { next := 0; }
      last := next;
      var target := FirstAt(order, next);
      if target.None? { return None; }
      var nd := target.value;
      var slot: nat := if history[nd] >= c then 0 else history[nd];
      var tried := 0;
      ghost var start, before := slot, conns;
      while tried < c
        invariant tried <= c && history == old(history) && last == next
        invariant ScanSlots(conns, closed, c, nd, slot, c - tried) == ScanSlots(before, closed, c, nd, start, c)
      {
        var key := KeyAt(nd, slot);
        tried := tried + 1;
        if key in conns {
          if conns[key] !in closed {
            last := nd.index;
            history := history[nd := Succ(slot, c)];
            return Some(key);
          }
          conns := conns - {key};
        }
        slot := slot + 1;
        if slot >= c { slot := 0; }
      }
      return None;
    }

    /**
     * An uninterrupted selection.  A connection is found exactly when, for some index below the number of nodes ever
     * pooled, the first node with that index has an open one.
     */
    method NextFollowerConn(closed: set<nat>, order: seq<Node>) returns (found: Option<Key>)
      requires PoolInv(State(), c) && Lists(order, history)
      modifies this
      ensures (State(), found) == Select(old(State()), closed, c, order, |old(history)|)
      ensures PoolInv(State(), c) && Lists(order, history)
      ensures found.Some? <==> exists i :: Reachable(old(State()), closed, c, order, i)
      ensures found.Some? ==> OpenAt(old(conns), closed, found.value)
      ensures OnlyClosedDropped(old(conns), conns, closed)
    {
      var n := |history|;
      SelectExact(State(), closed, c, order);
      SelectKeeps(State(), closed, c, order, n);
      found := None;
      var i := 0;
      while i < n && found.None?
        invariant i <= n && PoolInv(State(), c) && Lists(order, history)
        invariant found.None? ==>
                    Select(State(), closed, c, order, n - i) == Select(old(State()), closed, c, order, n)
        invariant found.Some? ==> (State(), found) == Select(old(State()), closed, c, order, n)
        decreases n - i, found.None?
      {
        VisitKeeps(State(), closed, c, order);
        found := VisitNode(closed, order);
        i := i + 1;
      }
    }
  }

  // ---- What a visit does ----

  /** Nothing but closed connections has been dropped. */
  ghost predicate OnlyClosedDropped(before: map<Key, nat>, after: map<Key, nat>, closed: set<nat>) {
    && (forall k :: k in after ==> k in before && after[k] == before[k])
    && (forall k :: OpenAt(before, closed, k) ==> k in after)
  }

  /** The scan gives the first open slot in cyclic order, and none only if none of those tried is open. */
  lemma {:induction false} ScanFinds(conns: map<Key, nat>, closed: set<nat>, c: nat, nd: Node, slot: nat, tries: nat)
    requires tries <= c && (tries > 0 ==> slot < c)
    ensures var (found, after) := ScanSlots(conns, closed, c, nd, slot, tries);
            && OnlyClosedDropped(conns, after, closed)
            && (found.Some? ==> found.value < c && OpenAt(conns, closed, KeyAt(nd, found.value)))
            && (found.Some? ==> exists i :: 0 <= i < tries && Around(slot, i, c) == found.value &&
                                  forall j :: 0 <= j < i ==> !OpenAt(conns, closed, KeyAt(nd, Around(slot, j, c))))
            && (found.None? ==> forall i :: 0 <= i < tries ==> !OpenAt(conns, closed, KeyAt(nd, Around(slot, i, c))))
    decreases tries
  {
    if tries > 0 {
      var key := KeyAt(nd, slot);
      assert Around(slot, 0, c) == slot;
      if !OpenAt(conns, closed, key) {
        var next := if key in conns then conns - {key} else conns;
        var s := Succ(slot, c);
        ScanFinds(next, closed, c, nd, s, tries - 1);
        forall i | 1 <= i < tries ensures Around(slot, i, c) == Around(s, i - 1, c) {}
        var (found, after) := ScanSlots(next, closed, c, nd, s, tries - 1);
        if found.Some? {
          var i :| 0 <= i < tries - 1 && Around(s, i, c) == found.value &&
                   forall j :: 0 <= j < i ==> !OpenAt(next, closed, KeyAt(nd, Around(s, j, c)));
          assert Around(slot, i + 1, c) == found.value;
          forall j | 0 <= j < i + 1 ensures !OpenAt(conns, closed, KeyAt(nd, Around(slot, j, c))) {
            if j > 0 {
              assert Around(slot, j, c) == Around(s, j - 1, c);
              assert !OpenAt(next, closed, KeyAt(nd, Around(s, j - 1, c)));
            }
          }
        } else {
          forall i | 0 <= i < tries ensures !OpenAt(conns, closed, KeyAt(nd, Around(slot, i, c))) {
            if i > 0 {
              assert !OpenAt(next, closed, KeyAt(nd, Around(s, i - 1, c)));
            }
          }
        }
      }
    }
  }

  lemma AroundCovers(start: nat, i: nat, n: nat) returns (j: nat)
    requires start < n && i < n
    ensures 0 <= j < n && Around(start, j, n) == i
  {
    j := if i >= start then i - start else i + n - start;
  }

  /** A full round over the slots misses nothing. */
  lemma FullScan(conns: map<Key, nat>, closed: set<nat>, c: nat, nd: Node, slot: nat)
    requires c > 0 ==> slot < c
    ensures ScanSlots(conns, closed, c, nd, slot, c).0.Some? <==> HasOpen(conns, closed, c, nd)
  {
    ScanFinds(conns, closed, c, nd, slot, c);
    if HasOpen(conns, closed, c, nd) {
      var s :| 0 <= s < c && OpenAt(conns, closed, KeyAt(nd, s));
      var j := AroundCovers(slot, s, c);
    }
  }

  /** The index is one the selection can use: the node it leads to has an open connection. */
  ghost predicate Reachable(p: Pool, closed: set<nat>, c: nat, order: seq<Node>, i: nat) {
    i < |p.history| && FirstAt(order, i).Some? && HasOpen(p.conns, closed, c, FirstAt(order, i).value)
  }

  lemma VisitKeeps(p: Pool, closed: set<nat>, c: nat, order: seq<Node>)
    requires PoolInv(p, c) && Lists(order, p.history)
    ensures var (p', found) := Visit(p, closed, c, order);
            && PoolInv(p', c) && p'.history.Keys == p.history.Keys && Lists(order, p'.history)
            && OnlyClosedDropped(p.conns, p'.conns, closed)
            && p'.last == Succ(p.last, |p.history|)
            && (found.Some? ==> OpenAt(p.conns, closed, found.value) && found.value.node == p'.last)
            && (found.None? ==> p'.history == p.history)
            && (p.history != map[] ==> (found.Some? <==> Reachable(p, closed, c, order, p'.last)))
  {
    var next := Succ(p.last, |p.history|);
    match FirstAt(order, next)
    case None =>
    case Some(nd) =>
      assert nd in p.history;
      ScanFinds(p.conns, closed, c, nd, p.history[nd], c);
      FullScan(p.conns, closed, c, nd, p.history[nd]);
      var (found, conns) := ScanSlots(p.conns, closed, c, nd, p.history[nd], c);
      if found.Some? {
        assert p.history[nd := Succ(found.value, c)].Keys == p.history.Keys;
        assert |p.history[nd := Succ(found.value, c)]| == |p.history|;
      }
  }

  lemma OpenKept(before: map<Key, nat>, after: map<Key, nat>, closed: set<nat>, c: nat, nd: Node)
    requires OnlyClosedDropped(before, after, closed)
    ensures HasOpen(after, closed, c, nd) <==> HasOpen(before, closed, c, nd)
  {
    forall slot | 0 <= slot < c
      ensures OpenAt(after, closed, KeyAt(nd, slot)) <==> OpenAt(before, closed, KeyAt(nd, slot))
    {}
  }

  lemma ReachableKept(p: Pool, p': Pool, closed: set<nat>, c: nat, order: seq<Node>)
    requires OnlyClosedDropped(p.conns, p'.conns, closed) && p'.history == p.history
    ensures forall i :: Reachable(p', closed, c, order, i) == Reachable(p, closed, c, order, i)
  {
    forall i ensures Reachable(p', closed, c, order, i) == Reachable(p, closed, c, order, i) {
      if FirstAt(order, i).Some? {
        OpenKept(p.conns, p'.conns, closed, c, FirstAt(order, i).value);
      }
    }
  }

  lemma {:induction false} SelectKeeps(p: Pool, closed: set<nat>, c: nat, order: seq<Node>, m: nat)
    requires PoolInv(p, c) && Lists(order, p.history)
    ensures var (p', found) := Select(p, closed, c, order, m);
            && PoolInv(p', c) && p'.history.Keys == p.history.Keys && Lists(order, p'.history)
            && OnlyClosedDropped(p.conns, p'.conns, closed)
            && (found.Some? ==> OpenAt(p.conns, closed, found.value))
    decreases m
  {
    if m > 0 {
      var (p1, found) := Visit(p, closed, c, order);
      VisitKeeps(p, closed, c, order);
      if found.None? {
        SelectKeeps(p1, closed, c, order, m - 1);
      }
    }
  }

  /** One of the `m` indices after the last one used, in cyclic order, can be used. */
  ghost predicate ReachableWithin(p: Pool, closed: set<nat>, c: nat, order: seq<Node>, m: nat)
    requires m <= |p.history| && (m > 0 ==> p.last < |p.history|)
  {
    exists j :: 1 <= j <= m && Reachable(p, closed, c, order, Around(p.last, j, |p.history|))
  }

  lemma ReachableWithinStep(p: Pool, p': Pool, closed: set<nat>, c: nat, order: seq<Node>, m: nat)
    requires 0 < m <= |p.history| && p.last < |p.history| && p'.history == p.history
    requires p'.last == Around(p.last, 1, |p.history|)
    requires OnlyClosedDropped(p.conns, p'.conns, closed)
    requires !Reachable(p, closed, c, order, p'.last)
    ensures ReachableWithin(p', closed, c, order, m - 1) <==> ReachableWithin(p, closed, c, order, m)
  {
    var n := |p.history|;
    ReachableKept(p, p', closed, c, order);
    if ReachableWithin(p', closed, c, order, m - 1) {
      var j :| 1 <= j <= m - 1 && Reachable(p', closed, c, order, Around(p'.last, j, n));
      assert Around(p.last, j + 1, n) == Around(p'.last, j, n);
    }
    if ReachableWithin(p, closed, c, order, m) {
      var j :| 1 <= j <= m && Reachable(p, closed, c, order, Around(p.last, j, n));
      assert Around(p'.last, j - 1, n) == Around(p.last, j, n);
    }
  }

  /** `m` visits look at the `m` indices after the last one used, in cyclic order. */
  lemma {:induction false} SelectLooks(p: Pool, closed: set<nat>, c: nat, order: seq<Node>, m: nat)
    requires PoolInv(p, c) && Lists(order, p.history) && m <= |p.history|
    ensures m > 0 ==> p.last < |p.history|
    ensures Select(p, closed, c, order, m).1.Some? <==> ReachableWithin(p, closed, c, order, m)
    decreases m
  {
    if m > 0 {
      var (p1, found) := Visit(p, closed, c, order);
      VisitKeeps(p, closed, c, order);
      assert p1.last == Around(p.last, 1, |p.history|);
      if found.None? {
        SelectLooks(p1, closed, c, order, m - 1);
        ReachableWithinStep(p, p1, closed, c, order, m);
      }
    }
  }

  /**
   * Exactly when a selection finds a connection: for some index below the number of nodes ever pooled, the first node
   * with that index in iteration order has an open connection.
   */
  lemma SelectExact(p: Pool, closed: set<nat>, c: nat, order: seq<Node>)
    requires PoolInv(p, c) && Lists(order, p.history)
    ensures Select(p, closed, c, order, |p.history|).1.Some? <==> exists i :: Reachable(p, closed, c, order, i)
  {
    var n := |p.history|;
    SelectLooks(p, closed, c, order, n);
    if i :| Reachable(p, closed, c, order, i) {
      var j := AroundCovers(p.last, i, n);
      assert Around(p.last, if j == 0 then n else j, n) == i;
    }
  }

  /** Node indices are exactly 0..n-1, one node each. */
  ghost predicate Dense(history: map<Node, nat>) {
    && (forall nd :: nd in history ==> nd.index < |history|)
    && (forall a, b :: a in history && b in history && a.index == b.index ==> a == b)
  }

  /** With dense indices, a selection finds a connection exactly when the pool has an open one. */
  lemma DenseSelectionIsComplete(p: Pool, closed: set<nat>, c: nat, order: seq<Node>)
    requires PoolInv(p, c) && Lists(order, p.history) && Dense(p.history)
    ensures Select(p, closed, c, order, |p.history|).1.Some? <==> exists k :: OpenAt(p.conns, closed, k)
  {
    SelectExact(p, closed, c, order);
    if k :| OpenAt(p.conns, closed, k) {
      var nd := NodeOf(k);
      assert nd in p.history && nd in order && KeyAt(nd, k.slot) == k;
      assert FirstAt(order, nd.index) == Some(nd);
      assert HasOpen(p.conns, closed, c, nd);
      assert Reachable(p, closed, c, order, nd.index);
    }
  }
}
