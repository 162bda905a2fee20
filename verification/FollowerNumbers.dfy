/** Exactly which node indices a sync gives out, and to whom. */
module FollowerNumbers {
  import opened Collections
  import opened FollowerPool
  import opened FollowerSync
  import opened FollowerIndices

  /** The indices below `n` that no pooled connection has. */
  ghost function Spare(conns: map<Key, nat>, n: nat): set<nat> {
    set i: nat | i < n && Unpooled(conns, i)
  }

  ghost predicate Unpooled(conns: map<Key, nat>, i: nat) {
    forall k :: k in conns ==> k.node != i
  }

  /** How many of the hosts are not known. */
  ghost function NewCount(history: map<Node, nat>, names: seq<Host>): nat {
    if names == [] then 0
    else NewCount(history, names[..|names| - 1]) + if Known(history, names[|names| - 1]) then 0 else 1
  }

  /** How many spare indices are above `i`. */
  ghost function Above(spare: set<nat>, i: nat): nat {
    |set x: nat | x in spare && x > i|
  }

  // ---- In terms of the list of free indices ----

  /** Host number `i` is new and gets the free index that is next from the end. */
  ghost predicate Given(history: map<Node, nat>, free: seq<nat>, names: seq<Host>, i: nat, nd: Node) {
    && i < |names| && nd.name == names[i] && !Known(history, names[i])
    && NewCount(history, names[..i]) < |free| && nd.index == free[|free| - 1 - NewCount(history, names[..i])]
  }

  ghost predicate GivenTo(history: map<Node, nat>, free: seq<nat>, names: seq<Host>, nd: Node) {
    exists i: nat :: Given(history, free, names, i, nd)
  }

  ghost function Left(free: seq<nat>, n: nat): seq<nat> {
    if n <= |free| then free[..|free| - n] else []
  }

  ghost predicate GivenOut(p: Pool, free: seq<nat>, names: seq<Host>, q: Pool, rest: seq<nat>) {
    && rest == Left(free, NewCount(p.history, names))
    && forall nd :: nd in q.history <==> nd in p.history || GivenTo(p.history, free, names, nd)
  }

  lemma GivenBefore(history: map<Node, nat>, free: seq<nat>, names: seq<Host>, nd: Node)
    requires names != []
    ensures GivenTo(history, free, names, nd) <==>
            GivenTo(history, free, names[..|names| - 1], nd) || Given(history, free, names, |names| - 1, nd)
  {
    var n := |names| - 1;
    forall i | 0 <= i < n ensures Given(history, free, names, i, nd) <==> Given(history, free, names[..n], i, nd) {
      assert names[..n][..i] == names[..i];
    }
  }

  lemma KnownBefore(p: Pool, free: seq<nat>, names: seq<Host>, q: Pool, rest: seq<nat>)
    requires names != [] && Distinct(names) && GivenOut(p, free, names[..|names| - 1], q, rest)
    ensures Known(q.history, names[|names| - 1]) <==> Known(p.history, names[|names| - 1])
  {
    var n := |names| - 1;
    assert forall i: nat, nd: Node :: Given(p.history, free, names[..n], i, nd) ==> nd.name == names[i] != names[n];
  }

  lemma LeftLast(free: seq<nat>, n: nat)
    ensures Left(free, n) != [] <==> n < |free|
    ensures n < |free| ==> Left(free, n)[|Left(free, n)| - 1] == free[|free| - 1 - n]
    ensures Left(free, n + 1) == if n < |free| then Left(free, n)[..|Left(free, n)| - 1] else []
  {}

  lemma LastGiven(p: Pool, free: seq<nat>, names: seq<Host>, rest: seq<nat>, nd: Node)
    requires names != [] && rest == Left(free, NewCount(p.history, names[..|names| - 1]))
    ensures Given(p.history, free, names, |names| - 1, nd) <==>
            !Known(p.history, names[|names| - 1]) && rest != [] && nd == Node(names[|names| - 1], rest[|rest| - 1])
  {
    LeftLast(free, NewCount(p.history, names[..|names| - 1]));
  }

  lemma LeftNext(p: Pool, free: seq<nat>, names: seq<Host>, rest: seq<nat>)
    requires names != [] && rest == Left(free, NewCount(p.history, names[..|names| - 1]))
    ensures Left(free, NewCount(p.history, names)) ==
            if Known(p.history, names[|names| - 1]) || rest == [] then rest else rest[..|rest| - 1]
  {
    LeftLast(free, NewCount(p.history, names[..|names| - 1]));
  }

  /** What placing one host does to the known nodes and to the free indices. */
  ghost predicate HostGiven(q: Pool, rest: seq<nat>, name: Host, r: Pool, rest': seq<nat>) {
    if Known(q.history, name) || rest == [] then r.history.Keys == q.history.Keys && rest' == rest
    else r.history.Keys == q.history.Keys + {Node(name, rest[|rest| - 1])} && rest' == rest[..|rest| - 1]
  }

  lemma PlaceHostGives(q: Pool, rest: seq<nat>, name: Host, extra: seq<nat>, closed: set<nat>, c: nat)
    requires PoolInv(q, c) && extra != [] && Room(q.conns, name, |extra|, c)
    ensures var r := PlaceHost(q, rest, name, extra, closed, c); HostGiven(q, rest, name, r.0, r.1)
  {
    if Known(q.history, name) {
      ReturningHostKeepsIndex(q, rest, name, extra, closed, c);
    } else if rest != [] {
      NewHostTakesLastFree(q, rest, name, extra, closed, c);
    }
  }

  lemma OneMoreGiven(p: Pool, free: seq<nat>, names: seq<Host>, q: Pool, rest: seq<nat>, r: Pool, rest': seq<nat>)
    requires names != [] && Distinct(names) && GivenOut(p, free, names[..|names| - 1], q, rest)
    requires HostGiven(q, rest, names[|names| - 1], r, rest')
    ensures GivenOut(p, free, names, r, rest')
  {
    KnownBefore(p, free, names, q, rest);
    LeftNext(p, free, names, rest);
    forall nd ensures nd in r.history <==> nd in p.history || GivenTo(p.history, free, names, nd) {
      GivenBefore(p.history, free, names, nd);
      LastGiven(p, free, names, rest, nd);
      assert nd in r.history <==> nd in r.history.Keys;
    }
  }

  lemma {:induction false} PlacingGivesOut(p: Pool, free: seq<nat>, names: seq<Host>, extra: map<Host, seq<nat>>,
                                          closed: set<nat>, c: nat)
    requires PoolInv(p, c) && Distinct(names) && AllRoom(p.conns, names, extra, c) && AllGiven(names, extra)
    ensures var r := PlaceHosts(p, free, names, extra, closed, c); GivenOut(p, free, names, r.0, r.1)
    decreases |names|
  {
    if names != [] {
      AllButTheLast(p, names, extra, c);
      PlacingGivesOut(p, free, names[..|names| - 1], extra, closed, c);
      var q, rest, last := LastPlacement(p, free, names, extra, closed, c);
      PlaceHostGives(q, rest, last, extra[last], closed, c);
      var r := PlaceHost(q, rest, last, extra[last], closed, c);
      OneMoreGiven(p, free, names, q, rest, r.0, r.1);
    }
  }

  // ---- In terms of the pool ----

  lemma FreeIdsAreSpare(conns: map<Key, nat>, n: nat, free: seq<nat>)
    requires free == FreeIds(UsedNodes(conns), n)
    ensures (forall i: nat :: i in free <==> i in Spare(conns, n)) && |free| == |Spare(conns, n)|
    ensures forall i, j :: 0 <= i < j < |free| ==> free[i] < free[j]
  {
    FreeIdsAreFree(UsedNodes(conns), n);
    forall i: nat ensures i in UsedNodes(conns) <==> !Unpooled(conns, i) {}
    ListSize(free, Spare(conns, n));
  }

  /** In an ascending list of the spare indices, the one at position `m` has those after it above it. */
  lemma AboveInList(spare: set<nat>, free: seq<nat>, m: nat)
    requires m < |free| && (forall i: nat :: i in free <==> i in spare)
    requires forall i, j :: 0 <= i < j < |free| ==> free[i] < free[j]
    ensures Above(spare, free[m]) == |free| - 1 - m
  {
    var later := free[m + 1..];
    forall x: nat ensures x in later <==> x in spare && x > free[m] {
      if x in spare && x > free[m] {
        var i :| 0 <= i < |free| && free[i] == x;
        assert later[i - m - 1] == x;
      }
      if x in later {
        var i :| 0 <= i < |later| && later[i] == x;
        assert free[m + 1 + i] == x && x in free;
      }
    }
    ListSize(later, set x: nat | x in spare && x > free[m]);
  }

  /** Host number `i` is new, and `nd` has the spare index with as many above it as new hosts came before. */
  ghost predicate Numbers(p: Pool, n: nat, names: seq<Host>, i: nat, nd: Node) {
    && i < |names| && nd.name == names[i] && !Known(p.history, names[i])
    && nd.index in Spare(p.conns, n) && Above(Spare(p.conns, n), nd.index) == NewCount(p.history, names[..i])
  }

  lemma GivenIsNumbered(p: Pool, n: nat, free: seq<nat>, names: seq<Host>, i: nat, nd: Node)
    requires free == FreeIds(UsedNodes(p.conns), n)
    ensures Given(p.history, free, names, i, nd) <==> Numbers(p, n, names, i, nd)
  {
    FreeIdsAreSpare(p.conns, n, free);
    var spare := Spare(p.conns, n);
    if Given(p.history, free, names, i, nd) {
      var m := |free| - 1 - NewCount(p.history, names[..i]);
      assert free[m] in free;
      AboveInList(spare, free, m);
    }
    if Numbers(p, n, names, i, nd) {
      assert nd.index in free;
      var m :| 0 <= m < |free| && free[m] == nd.index;
      AboveInList(spare, free, m);
    }
  }

  lemma {:induction false} NewCountGrows(history: map<Node, nat>, names: seq<Host>, i: nat, j: nat)
    requires i < j <= |names| && !Known(history, names[i])
    ensures NewCount(history, names[..i]) < NewCount(history, names[..j])
    decreases j
  {
    assert names[..j][..j - 1] == names[..j - 1];
    if i < j - 1 {
      NewCountGrows(history, names, i, j - 1);
    }
  }

  /** The nodes known after a section that were not known before. */
  ghost predicate NewNode(p: Pool, q: Pool, nd: Node) { nd in q.history && nd !in p.history }

  /**
   * Exactly who is known after a sync: those known before, and of the new hosts, in placing order, each with the highest
   * index that no pooled connection has and no new host before it took, as long as there is one below the number of
   * followers.
   */
  lemma SyncNumbersExactly(p: Pool, followers: seq<Host>, names: seq<Host>, extra: map<Host, seq<nat>>, closed: set<nat>, c: nat)
    requires PoolInv(p, c) && Distinct(names) && AllRoom(p.conns, names, extra, c) && AllGiven(names, extra)
    ensures var q := SyncWrite(p, followers, names, extra, closed, c);
            forall nd :: nd in q.history <==> nd in p.history || exists i :: Numbers(p, |followers|, names, i, nd)
  {
    var free, n := FreeIds(UsedNodes(p.conns), |followers|), |followers|;
    PlacingGivesOut(p, free, names, extra, closed, c);
    forall i: nat, nd: Node ensures Given(p.history, free, names, i, nd) <==> Numbers(p, n, names, i, nd) {
      GivenIsNumbered(p, n, free, names, i, nd);
    }
  }

  lemma NumberedOnce(p: Pool, n: nat, names: seq<Host>, i: nat, a: Node, j: nat, b: Node)
    requires Numbers(p, n, names, i, a) && Numbers(p, n, names, j, b) && a.index == b.index
    ensures a == b
  {
    if i < j { NewCountGrows(p.history, names, i, j); }
    if j < i { NewCountGrows(p.history, names, j, i); }
  }

  /** A new host's index is below the number of followers and no pooled connection has it. */
  lemma NewIndicesAreUnused(p: Pool, followers: seq<Host>, names: seq<Host>, extra: map<Host, seq<nat>>, closed: set<nat>, c: nat,
                            a: Node)
    returns (i: nat)
    requires PoolInv(p, c) && Distinct(names) && AllRoom(p.conns, names, extra, c) && AllGiven(names, extra)
    requires NewNode(p, SyncWrite(p, followers, names, extra, closed, c), a)
    ensures a.index < |followers| && a.name in names && !Known(p.history, a.name)
    ensures forall k :: k in p.conns ==> k.node != a.index
    ensures Numbers(p, |followers|, names, i, a)
  {
    SyncNumbersExactly(p, followers, names, extra, closed, c);
    i :| Numbers(p, |followers|, names, i, a);
  }

  /** No two new hosts share an index. */
  lemma NewIndicesDiffer(p: Pool, followers: seq<Host>, names: seq<Host>, extra: map<Host, seq<nat>>, closed: set<nat>, c: nat,
                         a: Node, b: Node)
    requires PoolInv(p, c) && Distinct(names) && AllRoom(p.conns, names, extra, c) && AllGiven(names, extra)
    requires NewNode(p, SyncWrite(p, followers, names, extra, closed, c), a)
    requires NewNode(p, SyncWrite(p, followers, names, extra, closed, c), b) && a.index == b.index
    ensures a == b
  {
    var i := NewIndicesAreUnused(p, followers, names, extra, closed, c, a);
    var j := NewIndicesAreUnused(p, followers, names, extra, closed, c, b);
    NumberedOnce(p, |followers|, names, i, a, j, b);
  }

  /** A host with new connections stays unknown exactly when the new hosts before it have used up the spare indices. */
  lemma LeftOutExactly(p: Pool, followers: seq<Host>, names: seq<Host>, extra: map<Host, seq<nat>>, closed: set<nat>, c: nat, i: nat)
    requires PoolInv(p, c) && Distinct(names) && AllRoom(p.conns, names, extra, c) && AllGiven(names, extra)
    requires i < |names| && !Known(p.history, names[i])
    ensures Known(SyncWrite(p, followers, names, extra, closed, c).history, names[i]) <==>
            NewCount(p.history, names[..i]) < |Spare(p.conns, |followers|)|
  {
    var free := FreeIds(UsedNodes(p.conns), |followers|);
    PlacingGivesOut(p, free, names, extra, closed, c);
    FreeIdsAreSpare(p.conns, |followers|, free);
    var q, n := SyncWrite(p, followers, names, extra, closed, c), NewCount(p.history, names[..i]);
    if n < |free| {
      assert Given(p.history, free, names, i, Node(names[i], free[|free| - 1 - n]));
    }
    if Known(q.history, names[i]) {
      var nd :| nd in q.history && nd.name == names[i];
      var j :| Given(p.history, free, names, j, nd);
      assert j == i;
    }
  }

  // ---- Which slots the new connections take ----

  /** The slots of a host without an open connection. */
  ghost function Vacant(conns: map<Key, nat>, closed: set<nat>, name: Host, c: nat): set<nat> {
    set i: nat | i < c && NoneOpen(conns, closed, name, i)
  }

  ghost predicate NoneOpen(conns: map<Key, nat>, closed: set<nat>, name: Host, i: nat) {
    forall k :: k in conns && k.name == name && k.slot == i ==> conns[k] in closed
  }

  lemma FreeSlotsAreVacant(conns: map<Key, nat>, closed: set<nat>, name: Host, c: nat, slots: seq<nat>)
    requires slots == FreeSlots(conns, closed, name, c)
    ensures forall i: nat :: i in slots <==> i in Vacant(conns, closed, name, c)
    ensures forall i, j :: 0 <= i < j < |slots| ==> slots[i] < slots[j]
  {
    FreeIdsAreFree(OpenSlots(conns, closed, name), c);
    forall i: nat ensures i in OpenSlots(conns, closed, name) <==> !NoneOpen(conns, closed, name, i) {}
  }

  lemma BelowInList(vacant: set<nat>, slots: seq<nat>, m: nat)
    requires m < |slots| && (forall i: nat :: i in slots <==> i in vacant)
    requires forall i, j :: 0 <= i < j < |slots| ==> slots[i] < slots[j]
    ensures |set x: nat | x in vacant && x < slots[m]| == m
  {
    var earlier := slots[..m];
    forall x: nat ensures x in earlier <==> x in vacant && x < slots[m] {
      if x in vacant && x < slots[m] {
        var i :| 0 <= i < |slots| && slots[i] == x;
        assert earlier[i] == x;
      }
      if x in earlier {
        var i :| 0 <= i < |earlier| && earlier[i] == x;
        assert slots[i] == x && x in slots;
      }
    }
    ListSize(earlier, set x: nat | x in vacant && x < slots[m]);
  }

  /** New connection number `m` of a placed host is in its vacant slot with `m` vacant ones below. */
  lemma NewConnectionsTakeTheLowest(p: Pool, free: seq<nat>, name: Host, extra: seq<nat>, closed: set<nat>, c: nat, m: nat)
    returns (slot: nat)
    requires PoolInv(p, c) && Room(p.conns, name, |extra|, c) && m < |extra| && (Known(p.history, name) || free != [])
    ensures var vacant := Vacant(p.conns, closed, name, c);
            slot in vacant && |set x: nat | x in vacant && x < slot| == m
    ensures var q, k := PlaceHost(p, free, name, extra, closed, c).0, Key(name, PlacedIndex(p.history, free, name), slot);
            k in q.conns && q.conns[k] == extra[m]
  {
    var slots := FreeSlots(p.conns, closed, name, c);
    RoomGivesSlots(p.conns, closed, name, |extra|, c);
    FreeSlotsAreVacant(p.conns, closed, name, c, slots);
    slot := slots[m];
    assert slot in slots;
    BelowInList(Vacant(p.conns, closed, name, c), slots, m);
    InsertConnsEffect(p, Node(name, PlacedIndex(p.history, free, name)), slots, extra);
    assert KeyAt(Node(name, PlacedIndex(p.history, free, name)), slots[m]) == Key(name, PlacedIndex(p.history, free, name), slot);
  }
}
