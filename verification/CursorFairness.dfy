/** How evenly the connections of one node are used, whichever of them are open. */
module CursorFairness {
  import opened Bytes
  import opened Collections
  import opened FollowerPool
  import opened FollowerSync
  import opened Fairness
  import opened OpenFairness

  // ---- Which connection a selection returns, and where it leaves the cursor ----

  /** `slot` is the first open one of the node in cyclic order from `start`. */
  ghost predicate FirstOpenSlot(conns: map<Key, nat>, closed: set<nat>, c: nat, nd: Node, start: nat, slot: nat) {
    && start < c && OpenAt(conns, closed, KeyAt(nd, slot))
    && exists i :: 0 <= i < c && Around(start, i, c) == slot &&
                   forall j :: 0 <= j < i ==> !OpenAt(conns, closed, KeyAt(nd, Around(start, j, c)))
  }

  /** A selection that found `k` took the first open slot from its node's cursor, and moved only that cursor, one past it. */
  ghost predicate TookFromCursor(p: Pool, q: Pool, closed: set<nat>, c: nat, k: Key) {
    && NodeOf(k) in p.history && FirstOpenSlot(p.conns, closed, c, NodeOf(k), p.history[NodeOf(k)], k.slot)
    && q.history == p.history[NodeOf(k) := (k.slot + 1) % c] && q.last == k.node
  }

  lemma VisitTakesFromCursor(p: Pool, closed: set<nat>, c: nat, order: seq<Node>)
    requires PoolInv(p, c) && Lists(order, p.history)
    ensures var (q, found) := Visit(p, closed, c, order);
            if found.Some? then TookFromCursor(p, q, closed, c, found.value) else q.history == p.history
  {
    var next := Succ(p.last, |p.history|);
    match FirstAt(order, next)
    case None =>
    case Some(nd) =>
      assert nd in p.history;
      ScanFinds(p.conns, closed, c, nd, p.history[nd], c);
      var (found, conns) := ScanSlots(p.conns, closed, c, nd, p.history[nd], c);
      if found.Some? {
        SuccIsNext(found.value, c);
      }
  }

  lemma SuccIsNext(slot: nat, c: nat)
    requires slot < c
    ensures Succ(slot, c) == (slot + 1) % c
  {}

  lemma FirstOpenKept(before: map<Key, nat>, after: map<Key, nat>, closed: set<nat>, c: nat, nd: Node, start: nat, slot: nat)
    requires OnlyClosedDropped(before, after, closed) && FirstOpenSlot(after, closed, c, nd, start, slot)
    ensures FirstOpenSlot(before, closed, c, nd, start, slot)
  {
    assert forall k :: OpenAt(after, closed, k) <==> OpenAt(before, closed, k);
  }

  /** On any pool: a selection returns its node's first open slot from the cursor and moves that cursor only. */
  lemma {:induction false} SelectTakesFromCursor(p: Pool, closed: set<nat>, c: nat, order: seq<Node>, m: nat)
    requires PoolInv(p, c) && Lists(order, p.history)
    ensures var (q, found) := Select(p, closed, c, order, m);
            if found.Some? then TookFromCursor(p, q, closed, c, found.value) else q.history == p.history
    decreases m
  {
    if m > 0 {
      var (p1, found) := Visit(p, closed, c, order);
      VisitTakesFromCursor(p, closed, c, order);
      VisitKeeps(p, closed, c, order);
      if found.None? {
        SelectTakesFromCursor(p1, closed, c, order, m - 1);
        var (q, found') := Select(p1, closed, c, order, m - 1);
        if found'.Some? {
          var k := found'.value;
          FirstOpenKept(p.conns, p1.conns, closed, c, NodeOf(k), p.history[NodeOf(k)], k.slot);
        }
      }
    }
  }

  // ---- Which closed connections a visit drops ----

  /** The scan drops exactly the entries it tries before the slot it finds: they are all closed. */
  lemma {:induction false} ScanDropsExactly(conns: map<Key, nat>, closed: set<nat>, c: nat, nd: Node, slot: nat, tries: nat)
    returns (tried: nat)
    requires tries <= c && (tries > 0 ==> slot < c)
    ensures var (found, after) := ScanSlots(conns, closed, c, nd, slot, tries);
            && tried <= tries && (found.None? ==> tried == tries)
            && (found.Some? ==> tried < tries && Around(slot, tried, c) == found.value)
            && forall k :: k in after <==> k in conns && !Tried(nd, slot, tried, c, k)
    decreases tries
  {
    tried := 0;
    if tries > 0 && !OpenAt(conns, closed, KeyAt(nd, slot)) {
      var key, s := KeyAt(nd, slot), Succ(slot, c);
      var next := if key in conns then conns - {key} else conns;
      var t := ScanDropsExactly(next, closed, c, nd, s, tries - 1);
      tried := t + 1;
      assert t < c - 1 ==> Around(s, t, c) == Around(slot, t + 1, c);
      assert ScanSlots(conns, closed, c, nd, slot, tries) == ScanSlots(next, closed, c, nd, s, tries - 1);
      forall k ensures k in ScanSlots(conns, closed, c, nd, slot, tries).1 <==> k in conns && !Tried(nd, slot, t + 1, c, k) {
        assert k in ScanSlots(next, closed, c, nd, s, tries - 1).1 <==> k in next && !Tried(nd, s, t, c, k);
        TriedNext(nd, slot, t, c, k);
        assert k in next <==> k in conns && k != key;
      }
    }
  }

  /** The key is one of the first `t` that a scan from `slot` tries. */
  ghost predicate Tried(nd: Node, slot: nat, t: nat, c: nat, k: Key) {
    slot < c && t <= c && NodeOf(k) == nd && exists i :: 0 <= i < t && Around(slot, i, c) == k.slot
  }

  lemma TriedNext(nd: Node, slot: nat, t: nat, c: nat, k: Key)
    requires slot < c && t < c
    ensures Tried(nd, slot, t + 1, c, k) <==> k == KeyAt(nd, slot) || Tried(nd, Succ(slot, c), t, c, k)
  {
    var s := Succ(slot, c);
    forall i | 0 <= i < t ensures Around(s, i, c) == Around(slot, i + 1, c) {}
    if Tried(nd, slot, t + 1, c, k) {
      var i :| 0 <= i < t + 1 && Around(slot, i, c) == k.slot;
      assert i > 0 ==> Around(s, i - 1, c) == k.slot;
    }
    if Tried(nd, s, t, c, k) {
      var i :| 0 <= i < t && Around(s, i, c) == k.slot;
      assert Around(slot, i + 1, c) == k.slot;
    }
    assert Around(slot, 0, c) == slot;
  }

  /**
   * A visit to node `nd` drops exactly the entries it tries before the connection it returns; one that returns none has
   * tried them all.
   */
  lemma VisitDropsExactly(p: Pool, closed: set<nat>, c: nat, order: seq<Node>, nd: Node) returns (tried: nat)
    requires PoolInv(p, c) && Lists(order, p.history) && FirstAt(order, Succ(p.last, |p.history|)) == Some(nd)
    ensures var (q, found) := Visit(p, closed, c, order);
            && tried <= c && (found.None? ==> tried == c)
            && nd in p.history && (found.Some? ==> found.value == KeyAt(nd, Around(p.history[nd], tried, c)))
            && forall k :: k in q.conns <==> k in p.conns && !Tried(nd, p.history[nd], tried, c, k)
  {
    assert nd in p.history;
    tried := ScanDropsExactly(p.conns, closed, c, nd, p.history[nd], c);
    var (found, conns) := ScanSlots(p.conns, closed, c, nd, p.history[nd], c);
    assert found.Some? ==> found.value == Around(p.history[nd], tried, c);
    assert Visit(p, closed, c, order).1 == if found.Some? then Some(KeyAt(nd, found.value)) else None;
  }

  // ---- The open slots of a node in the order in which their turn comes ----

  ghost function OpenSlotsAt(conns: map<Key, nat>, closed: set<nat>, c: nat, nd: Node): set<nat> {
    set slot: nat | slot < c && OpenAt(conns, closed, KeyAt(nd, slot))
  }

  /** The slot `i` on from `start` is open. */
  ghost predicate OpenOn(conns: map<Key, nat>, closed: set<nat>, c: nat, nd: Node, start: nat, i: nat) {
    start < c && i < c && OpenAt(conns, closed, KeyAt(nd, Around(start, i, c)))
  }

  /** `turns` says how far on from `start` the open slots are, in ascending order. */
  ghost predicate SlotTurns(conns: map<Key, nat>, closed: set<nat>, c: nat, nd: Node, start: nat, turns: seq<nat>) {
    && (forall k :: 0 <= k < |turns| ==> OpenOn(conns, closed, c, nd, start, turns[k]))
    && (forall i: nat :: OpenOn(conns, closed, c, nd, start, i) ==> i in turns)
    && (forall i, j :: 0 <= i < j < |turns| ==> turns[i] < turns[j])
  }

  lemma SlotTurnsExist(conns: map<Key, nat>, closed: set<nat>, c: nat, nd: Node, start: nat) returns (turns: seq<nat>)
    ensures SlotTurns(conns, closed, c, nd, start, turns)
  {
    var shut := set i: nat | i < c && !OpenOn(conns, closed, c, nd, start, i);
    turns := FreeIds(shut, c);
    FreeIdsAreFree(shut, c);
    forall k | 0 <= k < |turns| ensures OpenOn(conns, closed, c, nd, start, turns[k]) { assert turns[k] in turns; }
  }

  ghost function Passed(turns: seq<nat>, k: nat): nat
    requires k <= |turns|
  {
    if k == 0 then 0 else turns[k - 1] + 1
  }

  /** From `d` slots on, the first open slot is the next one whose turn it is, `e` slots on. */
  lemma FirstFrom(conns: map<Key, nat>, closed: set<nat>, c: nat, nd: Node, start: nat, d: nat, e: nat, slot: nat)
    requires start < c && d <= e && OpenOn(conns, closed, c, nd, start, e)
    requires forall i :: d <= i < e ==> !OpenOn(conns, closed, c, nd, start, i)
    requires FirstOpenSlot(conns, closed, c, nd, Around(start, d, c), slot)
    ensures slot == Around(start, e, c)
  {
    var from := Around(start, d, c);
    var i :| 0 <= i < c && Around(from, i, c) == slot &&
             forall j :: 0 <= j < i ==> !OpenAt(conns, closed, KeyAt(nd, Around(from, j, c)));
    assert Around(from, e - d, c) == Around(start, e, c);
    assert i < e - d ==> Around(from, i, c) == Around(start, d + i, c);
    assert i <= e - d;
    assert i < e - d ==> OpenOn(conns, closed, c, nd, start, d + i);
  }

  lemma NoTurnBetween(conns: map<Key, nat>, closed: set<nat>, c: nat, nd: Node, start: nat, turns: seq<nat>, k: nat)
    requires SlotTurns(conns, closed, c, nd, start, turns) && k < |turns|
    ensures Passed(turns, k) <= turns[k] < c && OpenOn(conns, closed, c, nd, start, turns[k])
    ensures forall i :: Passed(turns, k) <= i < turns[k] ==> !OpenOn(conns, closed, c, nd, start, i)
  {
    assert forall j :: 0 <= j < |turns| ==> turns[j] < Passed(turns, k) || turns[j] >= turns[k];
  }

  // ---- Calls in a row ----

  /** The slots of the connections returned that are of the node, in order. */
  ghost function SlotsOf(keys: seq<Option<Key>>, nd: Node): seq<nat> {
    if keys == [] then []
    else
      var last := keys[|keys| - 1];
      SlotsOf(keys[..|keys| - 1], nd) + if last.Some? && NodeOf(last.value) == nd then [last.value.slot] else []
  }

  lemma SlotsOfNext(keys: seq<Option<Key>>, found: Option<Key>, nd: Node)
    ensures SlotsOf(keys + [found], nd) ==
            SlotsOf(keys, nd) + if found.Some? && NodeOf(found.value) == nd then [found.value.slot] else []
  {
    assert (keys + [found])[..|keys|] == keys;
  }

  /** The node's connections have been returned in turn, and its cursor is just past the last one. */
  ghost predicate Walked(slots: seq<nat>, cursor: nat, c: nat, start: nat, turns: seq<nat>) {
    && |slots| <= |turns| && start < c && Passed(turns, |slots|) <= c
    && (forall i :: 0 <= i < |slots| ==> turns[i] < c && slots[i] == Around(start, turns[i], c))
    && cursor == Around(start, Passed(turns, |slots|), c)
  }

  lemma WalkOn(slots: seq<nat>, slot: nat, cursor: nat, c: nat, start: nat, turns: seq<nat>)
    requires Walked(slots, cursor, c, start, turns) && |slots| < |turns| && turns[|slots|] < c
    requires slot == Around(start, turns[|slots|], c)
    ensures Walked(slots + [slot], (slot + 1) % c, c, start, turns)
  {
    NextOn(start, turns[|slots|], c);
  }

  lemma NextOn(start: nat, t: nat, c: nat)
    requires start < c && t < c
    ensures (Around(start, t, c) + 1) % c == Around(start, t + 1, c)
  {
    SuccIsNext(Around(start, t, c), c);
  }

  lemma OneMoreWalk(p: Pool, q: Pool, closed: set<nat>, c: nat, order: seq<Node>, nd: Node, turns: seq<nat>, slots: seq<nat>,
                    k: Key, cursor: nat)
    requires PoolInv(p, c) && nd in p.history && Later(p, q, closed, c, order) && nd in q.history
    requires SlotTurns(p.conns, closed, c, nd, p.history[nd], turns)
    requires Walked(slots, q.history[nd], c, p.history[nd], turns) && |slots| < |turns|
    requires NodeOf(k) == nd && FirstOpenSlot(q.conns, closed, c, nd, q.history[nd], k.slot) && cursor == (k.slot + 1) % c
    ensures Walked(slots + [k.slot], cursor, c, p.history[nd], turns)
  {
    var start, n := p.history[nd], |slots|;
    FirstOpenKept(p.conns, q.conns, closed, c, nd, q.history[nd], k.slot);
    NoTurnBetween(p.conns, closed, c, nd, start, turns, n);
    FirstFrom(p.conns, closed, c, nd, start, Passed(turns, n), turns[n], k.slot);
    WalkOn(slots, k.slot, q.history[nd], c, start, turns);
  }

  /** Where the calls have got to with the connections of the node. */
  ghost predicate WalkedTo(p: Pool, q: Pool, keys: seq<Option<Key>>, closed: set<nat>, c: nat, order: seq<Node>, nd: Node,
                           turns: seq<nat>)
  {
    && Later(p, q, closed, c, order) && nd in p.history && nd in q.history
    && Walked(SlotsOf(keys, nd), q.history[nd], c, p.history[nd], turns)
  }

  /** A call that goes elsewhere leaves the node's cursor alone. */
  lemma CallElsewhere(q: Pool, q': Pool, found: Option<Key>, closed: set<nat>, c: nat, nd: Node)
    requires nd in q.history && (found.Some? ==> NodeOf(found.value) != nd)
    requires if found.Some? then TookFromCursor(q, q', closed, c, found.value) else q'.history == q.history
    ensures nd in q'.history && q'.history[nd] == q.history[nd]
  {}

  lemma OneCall(p: Pool, q: Pool, keys: seq<Option<Key>>, closed: set<nat>, c: nat, order: seq<Node>, nd: Node, turns: seq<nat>)
    returns (q': Pool, found: Option<Key>)
    requires PoolInv(p, c) && WalkedTo(p, q, keys, closed, c, order, nd, turns)
    requires SlotTurns(p.conns, closed, c, nd, p.history[nd], turns)
    ensures (q', found) == Select(q, closed, c, order, |q.history|)
    ensures |SlotsOf(keys + [found], nd)| <= |turns| ==> WalkedTo(p, q', keys + [found], closed, c, order, nd, turns)
  {
    var r := Select(q, closed, c, order, |q.history|);
    q', found := r.0, r.1;
    SelectIsLater(p, q, closed, c, order);
    SelectTakesFromCursor(q, closed, c, order, |q.history|);
    AfterCall(p, q, keys, q', found, closed, c, order, nd, turns);
  }

  lemma AfterCall(p: Pool, q: Pool, keys: seq<Option<Key>>, q': Pool, found: Option<Key>, closed: set<nat>, c: nat,
                  order: seq<Node>, nd: Node, turns: seq<nat>)
    requires PoolInv(p, c) && WalkedTo(p, q, keys, closed, c, order, nd, turns)
    requires SlotTurns(p.conns, closed, c, nd, p.history[nd], turns)
    requires Later(p, q', closed, c, order)
    requires if found.Some? then TookFromCursor(q, q', closed, c, found.value) else q'.history == q.history
    ensures |SlotsOf(keys + [found], nd)| <= |turns| ==> WalkedTo(p, q', keys + [found], closed, c, order, nd, turns)
  {
    SlotsOfNext(keys, found, nd);
    if found.Some? && NodeOf(found.value) == nd {
      if |SlotsOf(keys, nd)| < |turns| {
        OneMoreWalk(p, q, closed, c, order, nd, turns, SlotsOf(keys, nd), found.value, q'.history[nd]);
      }
    } else {
      CallElsewhere(q, q', found, closed, c, nd);
    }
  }

  lemma {:induction false} CallsWalk(p: Pool, closed: set<nat>, c: nat, order: seq<Node>, nd: Node, turns: seq<nat>, m: nat)
    returns (q: Pool, keys: seq<Option<Key>>)
    requires Lists(order, p.history) && PoolInv(p, c) && nd in p.history
    requires SlotTurns(p.conns, closed, c, nd, p.history[nd], turns)
    requires |SlotsOf(Calls(p, closed, c, order, m).1, nd)| <= |turns|
    ensures Calls(p, closed, c, order, m) == (q, keys) && WalkedTo(p, q, keys, closed, c, order, nd, turns)
    decreases m
  {
    if m == 0 {
      q, keys := p, [];
    } else {
      CallsBefore(p, closed, c, order, nd, m);
      var q0, keys0 := CallsWalk(p, closed, c, order, nd, turns, m - 1);
      var q', found := OneCall(p, q0, keys0, closed, c, order, nd, turns);
      CallsStep(p, closed, c, order, m - 1, q0, keys0, q', found);
      q, keys := q', keys0 + [found];
    }
  }

  lemma CallsBefore(p: Pool, closed: set<nat>, c: nat, order: seq<Node>, nd: Node, m: nat)
    requires m > 0 && forall x :: x in order ==> x in p.history
    ensures |SlotsOf(Calls(p, closed, c, order, m - 1).1, nd)| <= |SlotsOf(Calls(p, closed, c, order, m).1, nd)|
  {
    var q, keys := Calls(p, closed, c, order, m - 1).0, Calls(p, closed, c, order, m - 1).1;
    SlotsOfNext(keys, Select(q, closed, c, order, |q.history|).1, nd);
  }

  lemma TurnsAreTheOpenSlots(conns: map<Key, nat>, closed: set<nat>, c: nat, nd: Node, start: nat, turns: seq<nat>)
    returns (slots: seq<nat>)
    requires start < c && SlotTurns(conns, closed, c, nd, start, turns)
    ensures |slots| == |turns| == |OpenSlotsAt(conns, closed, c, nd)| && Distinct(slots)
    ensures forall i :: 0 <= i < |turns| ==> turns[i] < c && slots[i] == Around(start, turns[i], c)
    ensures forall s: nat :: s in slots <==> s in OpenSlotsAt(conns, closed, c, nd)
  {
    slots := seq(|turns|, i requires 0 <= i < |turns| => Around(start, turns[i], c));
    forall s: nat | s in OpenSlotsAt(conns, closed, c, nd) ensures s in slots {
      var i := AroundCovers(start, s, c);
      assert OpenOn(conns, closed, c, nd, start, i);
      var k :| 0 <= k < |turns| && turns[k] == i;
      assert slots[k] == s;
    }
    ListSize(slots, OpenSlotsAt(conns, closed, c, nd));
  }

  /**
   * On any pool, whatever is open: of calls in a row, the first m that go to a node with m open connections return each
   * of them exactly once.
   */
  lemma EachOpenSlotOnce(p: Pool, closed: set<nat>, c: nat, order: seq<Node>, nd: Node, calls: nat)
    requires PoolInv(p, c) && Lists(order, p.history) && nd in p.history
    requires |SlotsOf(Calls(p, closed, c, order, calls).1, nd)| == |OpenSlotsAt(p.conns, closed, c, nd)|
    ensures var slots := SlotsOf(Calls(p, closed, c, order, calls).1, nd);
            Distinct(slots) && forall s: nat :: s in slots <==> OpenAt(p.conns, closed, KeyAt(nd, s))
  {
    var start := p.history[nd];
    var turns := SlotTurnsExist(p.conns, closed, c, nd, start);
    var slots := TurnsAreTheOpenSlots(p.conns, closed, c, nd, start, turns);
    var q, keys := CallsWalk(p, closed, c, order, nd, turns, calls);
    assert SlotsOf(keys, nd) == slots;
    assert forall s: nat :: OpenAt(p.conns, closed, KeyAt(nd, s)) ==> s < c;
  }
}
