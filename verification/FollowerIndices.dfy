/** When node indices are a numbering of the hosts, and what goes wrong when they are not. */
module FollowerIndices {
  import opened Collections
  import opened FollowerPool
  import opened FollowerSync

  /** Host names that have an index. */
  ghost function HostsOf(history: map<Node, nat>): set<Host> {
    set nd | nd in history :: nd.name
  }

  lemma HostKnown(history: map<Node, nat>, name: Host)
    ensures name in HostsOf(history) <==> Known(history, name)
  {}

  // ---- Hosts that come back ----

  /** A host with an index gets that index again, and no index is given out. */
  lemma ReturningHostKeepsIndex(p: Pool, free: seq<nat>, name: Host, extra: seq<nat>, closed: set<nat>, c: nat)
    requires PoolInv(p, c) && Room(p.conns, name, |extra|, c) && Known(p.history, name)
    ensures var r := PlaceHost(p, free, name, extra, closed, c);
            && r.1 == free && r.0.history == p.history
            && (forall k :: k in r.0.conns && k.name == name ==> k.node == IndexOf(p.history, name))
  {
    RoomGivesSlots(p.conns, closed, name, |extra|, c);
    FreeIdsAreFree(OpenSlots(p.conns, closed, name), c);
    var nd := Node(name, IndexOf(p.history, name));
    InsertConnsEffect(p, nd, FreeSlots(p.conns, closed, name, c), extra);
    forall k | k in p.conns && k.name == name ensures k.node == nd.index {
      assert NodeOf(k) in p.history;
    }
  }

  /** A sync that names no new host leaves the history as it is. */
  lemma {:induction false} KnownHostsKeepHistory(p: Pool, free: seq<nat>, names: seq<Host>, extra: map<Host, seq<nat>>,
                                                closed: set<nat>, c: nat)
    requires PoolInv(p, c) && Distinct(names) && AllRoom(p.conns, names, extra, c)
    requires forall name :: name in names ==> Known(p.history, name)
    ensures PlaceHosts(p, free, names, extra, closed, c).0.history == p.history
    ensures PlaceHosts(p, free, names, extra, closed, c).1 == free
    decreases |names|
  {
    if names != [] {
      var q, rest, name := LastPlacement(p, free, names, extra, closed, c);
      KnownHostsKeepHistory(p, free, names[..|names| - 1], extra, closed, c);
      ReturningHostKeepsIndex(q, rest, name, extra[name], closed, c);
    }
  }

  // ---- The first sync ----

  /** Host `names[i]` with index `n - 1 - i`, for every `i`. */
  ghost function Numbered(names: seq<Host>, n: nat): set<Node>
    requires |names| <= n
  {
    if names == [] then {}
    else Numbered(names[..|names| - 1], n) + {Node(names[|names| - 1], n - |names|)}
  }

  lemma {:induction false} NumberedNodes(names: seq<Host>, n: nat)
    requires |names| <= n
    ensures |Numbered(names, n)| == |names|
    ensures forall nd :: nd in Numbered(names, n) ==> nd.name in names && n - |names| <= nd.index < n
    ensures forall a, b :: a in Numbered(names, n) && b in Numbered(names, n) && a.index == b.index ==> a == b
  {
    if names != [] {
      var i := |names| - 1;
      var nd, less := Node(names[i], n - |names|), Numbered(names[..i], n);
      NumberedNodes(names[..i], n);
      assert Numbered(names, n) == less + {nd};
      forall x | x in less ensures x.name in names && x.index > nd.index {
        assert x.name in names[..i];
      }
    }
  }

  lemma {:induction false} NumberedCovers(names: seq<Host>, n: nat)
    requires |names| <= n
    ensures forall i :: 0 <= i < |names| ==> Node(names[i], n - 1 - i) in Numbered(names, n)
  {
    if names != [] {
      NumberedCovers(names[..|names| - 1], n);
    }
  }

  /** `free` is 0, 1, ..., n - 1. */
  ghost predicate Counting(free: seq<nat>, n: nat) {
    |free| == n && forall i :: 0 <= i < n ==> free[i] == i
  }

  lemma CountingPrefix(free: seq<nat>, n: nat, rest: seq<nat>, m: nat)
    requires Counting(free, n) && 0 < m <= n && rest == free[..m]
    ensures rest != [] && rest[|rest| - 1] == m - 1 && rest[..|rest| - 1] == free[..m - 1]
  {}

  lemma {:induction false} AllFree(n: nat)
    ensures Counting(FreeIds({}, n), n)
  {
    if n > 0 {
      AllFree(n - 1);
    }
  }

  /** A host without an index takes the last free one. */
  lemma NewHostTakesLastFree(p: Pool, free: seq<nat>, name: Host, extra: seq<nat>, closed: set<nat>, c: nat)
    requires PoolInv(p, c) && extra != [] && Room(p.conns, name, |extra|, c) && !Known(p.history, name) && free != []
    ensures var r := PlaceHost(p, free, name, extra, closed, c);
            && r.0.history.Keys == p.history.Keys + {Node(name, free[|free| - 1])}
            && r.1 == free[..|free| - 1]
  {
    RoomGivesSlots(p.conns, closed, name, |extra|, c);
    FreeIdsAreFree(OpenSlots(p.conns, closed, name), c);
    InsertConnsEffect(p, Node(name, free[|free| - 1]), FreeSlots(p.conns, closed, name, c), extra);
  }

  lemma FirstPlacement(q: Pool, free: seq<nat>, rest: seq<nat>, names: seq<Host>, extra: seq<nat>, closed: set<nat>, c: nat, n: nat)
    requires 0 < |names| <= n && Distinct(names) && extra != [] && PoolInv(q, c)
    requires q.history.Keys == Numbered(names[..|names| - 1], n) && Room(q.conns, names[|names| - 1], |extra|, c)
    requires Counting(free, n) && rest == free[..n - |names| + 1]
    ensures PlaceHost(q, rest, names[|names| - 1], extra, closed, c).0.history.Keys == Numbered(names, n)
    ensures PlaceHost(q, rest, names[|names| - 1], extra, closed, c).1 == free[..n - |names|]
  {
    var i := |names| - 1;
    NumberedNodes(names[..i], n);
    assert names[i] !in names[..i];
    CountingPrefix(free, n, rest, n - i);
    NewHostTakesLastFree(q, rest, names[i], extra, closed, c);
  }

  /** The first hosts `names` of `n` have been placed, the last free indices first. */
  ghost predicate FirstPlaced(p: Pool, free: seq<nat>, names: seq<Host>, extra: map<Host, seq<nat>>, closed: set<nat>, c: nat,
                              n: nat, q: Pool, rest: seq<nat>)
  {
    && PoolInv(p, c) && Distinct(names) && AllRoom(p.conns, names, extra, c) && |names| <= n && Counting(free, n)
    && PlaceHosts(p, free, names, extra, closed, c) == (q, rest)
    && q.history.Keys == Numbered(names, n) && rest == free[..n - |names|]
  }

  lemma OneMorePlaced(p: Pool, free: seq<nat>, names: seq<Host>, extra: map<Host, seq<nat>>, closed: set<nat>, c: nat,
                      n: nat, q: Pool, rest: seq<nat>) returns (q': Pool, rest': seq<nat>)
    requires PoolInv(p, c) && Distinct(names) && AllRoom(p.conns, names, extra, c) && 0 < |names| <= n
    requires Counting(free, n) && AllGiven(names, extra)
    requires FirstPlaced(p, free, names[..|names| - 1], extra, closed, c, n, q, rest)
    ensures FirstPlaced(p, free, names, extra, closed, c, n, q', rest')
  {
    var q0, rest0, name := LastPlacement(p, free, names, extra, closed, c);
    assert q0 == q && rest0 == rest;
    FirstPlacement(q, free, rest, names, extra[name], closed, c, n);
    var r := PlaceHost(q, rest, name, extra[name], closed, c);
    q', rest' := r.0, r.1;
  }

  lemma {:induction false} FirstPlacements(p: Pool, free: seq<nat>, names: seq<Host>, extra: map<Host, seq<nat>>,
                                          closed: set<nat>, c: nat, n: nat) returns (q: Pool, rest: seq<nat>)
    requires PoolInv(p, c) && p.history == map[] && Distinct(names) && AllRoom(p.conns, names, extra, c) && |names| <= n
    requires AllGiven(names, extra) && Counting(free, n)
    ensures FirstPlaced(p, free, names, extra, closed, c, n, q, rest)
    decreases |names|
  {
    if names == [] {
      q, rest := p, free;
    } else {
      AllButTheLast(p, names, extra, c);
      q, rest := FirstPlacements(p, free, names[..|names| - 1], extra, closed, c, n);
      q, rest := OneMorePlaced(p, free, names, extra, closed, c, n, q, rest);
    }
  }

  /**
   * A first sync that connects at least once to each of n distinct hosts gives them the indices 0..n-1, one each,
   * whatever the order in which they are placed.
   */
  lemma FirstSyncIsDense(followers: seq<Host>, names: seq<Host>, extra: map<Host, seq<nat>>, closed: set<nat>, c: nat)
    requires Distinct(names) && |names| == |followers|
    requires forall name :: name in names <==> name in followers
    requires AllGiven(names, extra)
    requires AllRoom(EMPTY.conns, names, extra, c)
    ensures var q := SyncWrite(EMPTY, followers, names, extra, closed, c);
            Dense(q.history) && |q.history| == |followers| && HostsOf(q.history) == HostSet(followers)
  {
    var n := |followers|;
    assert UsedNodes(EMPTY.conns) == {};
    AllFree(n);
    var q, rest := FirstPlacements(EMPTY, FreeIds({}, n), names, extra, closed, c, n);
    NumberedNodes(names, n);
    NumberedCovers(names, n);
    var h := SyncWrite(EMPTY, followers, names, extra, closed, c).history;
    assert h.Keys == Numbered(names, n) && |h| == |h.Keys|;
  }
}
