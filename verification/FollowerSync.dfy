/** Bringing the follower pool in line with a topology: the snapshot, and the section that places new connections. */
module FollowerSync {
  import opened Collections
  import opened FollowerPool

  // ---- How many connections each host still needs ----

  function KeysOf(conns: map<Key, nat>, name: Host): set<Key> {
    set k | k in conns && k.name == name
  }

  function Required(conns: map<Key, nat>, followers: seq<Host>, c: nat): map<Host, int> {
    map name | name in (set f | f in followers) + (set k | k in conns :: k.name)
               && (KeysOf(conns, name) == {} || |KeysOf(conns, name)| < c) :: c - |KeysOf(conns, name)|
  }

  lemma {:induction false} SlotsCount(keys: set<Key>, slots: set<nat>)
    requires forall a, b :: a in keys && b in keys && a.slot == b.slot ==> a == b
    requires slots == set k | k in keys :: k.slot
    ensures |slots| == |keys|
    decreases keys
  {
    if keys != {} {
      var k :| k in keys;
      assert slots - {k.slot} == set x | x in keys - {k} :: x.slot;
      SlotsCount(keys - {k}, slots - {k.slot});
    }
  }

  /** No host ever holds more than `c` connections, so the subtraction never goes below zero. */
  lemma HostHoldsAtMostC(p: Pool, c: nat, name: Host)
    requires PoolInv(p, c)
    ensures |KeysOf(p.conns, name)| <= c
  {
    var keys := KeysOf(p.conns, name);
    var slots := set k | k in keys :: k.slot;
    forall a, b | a in keys && b in keys && a.slot == b.slot ensures a == b {
      assert NodeOf(a) == NodeOf(b);
    }
    SlotsCount(keys, slots);
    SubsetSize(slots, Below(c));
  }

  /** Hosts of the topology without a pooled connection need all `c`. */
  method NewHosts(conns: map<Key, nat>, followers: seq<Host>, keys: seq<Key>, c: nat) returns (required: map<Host, nat>)
    requires forall k :: k in keys <==> k in conns
    ensures forall f :: f in required <==> f in followers && KeysOf(conns, f) == {}
    ensures forall f :: f in required ==> required[f] == c
  {
    required := map[];
    for i := 0 to |followers|
      invariant forall f :: f in required <==> f in followers[..i] && KeysOf(conns, f) == {}
      invariant forall f :: f in required ==> required[f] == c
    {
      var name := followers[i];
      assert followers[..i + 1] == followers[..i] + [name];
      assert (exists k :: k in keys && k.name == name) <==> KeysOf(conns, name) != {} by {
        assert forall k :: k in KeysOf(conns, name) <==> k in keys && k.name == name;
      }
      if !exists k :: k in keys && k.name == name {
        required := required[name := c];
      }
    }
    assert followers[..|followers|] == followers;
  }

  /** `f` is among the hosts of `keys` and short of connections. */
  ghost predicate Short(conns: map<Key, nat>, keys: seq<Key>, f: Host, c: nat) {
    f in Names(keys) && |KeysOf(conns, f)| < c
  }

  /** Pooled hosts that are short of connections need the rest. */
  method Refill(p: Pool, first: map<Host, nat>, keys: seq<Key>, c: nat) returns (required: map<Host, nat>)
    requires PoolInv(p, c)
    requires forall f :: f in first ==> first[f] == c - |KeysOf(p.conns, f)|
    ensures forall f :: f in required <==> f in first || Short(p.conns, keys, f, c)
    ensures forall f :: f in required ==> required[f] == c - |KeysOf(p.conns, f)|
  {
    required := first;
    for i := 0 to |keys|
      invariant forall f :: f in required <==> f in first || Short(p.conns, keys[..i], f, c)
      invariant forall f :: f in required ==> required[f] == c - |KeysOf(p.conns, f)|
    {
      var name := keys[i].name;
      assert keys[..i + 1] == keys[..i] + [keys[i]];
      assert Names(keys[..i + 1]) == Names(keys[..i]) + {name};
      HostHoldsAtMostC(p, c, name);
      var need: nat := c - |KeysOf(p.conns, name)|;
      if need > 0 {
        required := required[name := need];
      }
    }
    assert keys[..|keys|] == keys;
  }

  /** The snapshot section: walks the topology and then the pooled keys, in any order. */
  method SnapshotRequired(p: Pool, followers: seq<Host>, keys: seq<Key>, c: nat) returns (required: map<Host, nat>)
    requires PoolInv(p, c) && forall k :: k in keys <==> k in p.conns
    ensures required == Required(p.conns, followers, c)
  {
    var first := NewHosts(p.conns, followers, keys, c);
    assert forall f :: KeysOf(p.conns, f) == {} ==> |KeysOf(p.conns, f)| == 0;
    required := Refill(p, first, keys, c);
    RequiredHosts(p.conns, followers, keys, c, required);
  }

  lemma NamesAreHosts(conns: map<Key, nat>, keys: seq<Key>)
    requires forall k :: k in keys <==> k in conns
    ensures (set k | k in conns :: k.name) == Names(keys)
    ensures forall f :: f in Names(keys) <==> KeysOf(conns, f) != {}
  {
    forall f ensures f in Names(keys) <==> KeysOf(conns, f) != {} {
      if k :| k in KeysOf(conns, f) {
        assert k in keys;
      }
      if f in Names(keys) {
        var k :| k in keys && k.name == f;
        assert k in KeysOf(conns, f);
      }
    }
  }

  lemma RequiredHosts(conns: map<Key, nat>, followers: seq<Host>, keys: seq<Key>, c: nat, required: map<Host, nat>)
    requires forall k :: k in keys <==> k in conns
    requires forall f :: f in required <==> (f in followers && KeysOf(conns, f) == {}) || Short(conns, keys, f, c)
    requires forall f :: f in required ==> required[f] == c - |KeysOf(conns, f)|
    ensures required == Required(conns, followers, c)
  {
    NamesAreHosts(conns, keys);
    var spec := Required(conns, followers, c);
    forall f ensures f in required <==> f in spec {}
    assert required.Keys == spec.Keys;
  }

  function Names(keys: seq<Key>): set<Host> {
    set k | k in keys :: k.name
  }

  // ---- Free indices ----

  /** The indices below `n` that are not used, in ascending order. */
  function FreeIds(used: set<nat>, n: nat): seq<nat> {
    if n == 0 then [] else FreeIds(used, n - 1) + if n - 1 in used then [] else [n - 1]
  }

  lemma {:induction false} FreeIdsAreFree(used: set<nat>, n: nat)
    ensures forall i: nat :: i in FreeIds(used, n) <==> i < n && i !in used
    ensures forall i, j :: 0 <= i < j < |FreeIds(used, n)| ==> FreeIds(used, n)[i] < FreeIds(used, n)[j]
  {
    if n > 0 {
      FreeIdsAreFree(used, n - 1);
      var less := FreeIds(used, n - 1);
      assert forall j :: 0 <= j < |less| ==> less[j] in less;
    }
  }

  lemma {:induction false} FreeIdsCong(used: set<nat>, used': set<nat>, n: nat)
    requires forall i: nat :: i < n ==> (i in used <==> i in used')
    ensures FreeIds(used, n) == FreeIds(used', n)
  {
    if n > 0 {
      FreeIdsCong(used, used', n - 1);
    }
  }

  lemma {:induction false} FreeIdsCount(used: set<nat>, n: nat)
    ensures |FreeIds(used, n)| + |used| >= n
  {
    if n > 0 {
      var rest := used - {n - 1};
      FreeIdsCong(used, rest, n - 1);
      FreeIdsCount(rest, n - 1);
    }
  }

  // ---- Placing the new connections of one host ----

  function OpenSlots(conns: map<Key, nat>, closed: set<nat>, name: Host): set<nat> {
    set k | k in conns && k.name == name && conns[k] !in closed :: k.slot
  }

  function FreeSlots(conns: map<Key, nat>, closed: set<nat>, name: Host, c: nat): seq<nat> {
    FreeIds(OpenSlots(conns, closed, name), c)
  }

  /** `count` new connections fit beside those the host holds. */
  ghost predicate Room(conns: map<Key, nat>, name: Host, count: nat, c: nat) {
    count + |KeysOf(conns, name)| <= c
  }

  lemma {:induction false} ImageSize(keys: set<Key>, slots: set<nat>)
    requires slots == set k | k in keys :: k.slot
    ensures |slots| <= |keys|
    decreases keys
  {
    if keys != {} {
      var k :| k in keys;
      var rest := set x | x in keys - {k} :: x.slot;
      ImageSize(keys - {k}, rest);
      assert slots == rest + {k.slot};
    }
  }

  /** Where there is room there are enough free slots: the indexing is in range. */
  lemma RoomGivesSlots(conns: map<Key, nat>, closed: set<nat>, name: Host, count: nat, c: nat)
    requires Room(conns, name, count, c)
    ensures count <= |FreeSlots(conns, closed, name, c)|
  {
    var open := set k | k in conns && k.name == name && conns[k] !in closed;
    SubsetSize(open, KeysOf(conns, name));
    ImageSize(open, OpenSlots(conns, closed, name));
    FreeIdsCount(OpenSlots(conns, closed, name), c);
  }

  /** Puts connections into the given slots of a node, one by one. */
  function InsertConns(p: Pool, nd: Node, slots: seq<nat>, extra: seq<nat>): Pool
    requires |extra| <= |slots|
  {
    if extra == [] then p
    else
      var i := |extra| - 1;
      var q := InsertConns(p, nd, slots, extra[..i]);
      Pool(q.conns[KeyAt(nd, slots[i]) := extra[i]], if nd in q.history then q.history else q.history[nd := slots[i]], q.last)
  }

  lemma {:induction false} InsertConnsEffect(p: Pool, nd: Node, slots: seq<nat>, extra: seq<nat>)
    requires |extra| <= |slots| && forall i, j :: 0 <= i < j < |slots| ==> slots[i] != slots[j]
    ensures var q := InsertConns(p, nd, slots, extra);
            && q.last == p.last
            && (forall k :: k in q.conns <==> k in p.conns || (NodeOf(k) == nd && k.slot in slots[..|extra|]))
            && (forall k :: k in p.conns && !(NodeOf(k) == nd && k.slot in slots[..|extra|]) ==> q.conns[k] == p.conns[k])
            && (forall i :: 0 <= i < |extra| ==> KeyAt(nd, slots[i]) in q.conns && q.conns[KeyAt(nd, slots[i])] == extra[i])
            && q.history == if extra == [] || nd in p.history then p.history else p.history[nd := slots[0]]
  {
    if extra != [] {
      var i := |extra| - 1;
      InsertConnsEffect(p, nd, slots, extra[..i]);
      assert slots[..i + 1] == slots[..i] + [slots[i]];
    }
  }

  ghost predicate Known(history: map<Node, nat>, name: Host) {
    exists nd :: nd in history && nd.name == name
  }

  /** The index the history has for a host. */
  ghost function IndexOf(history: map<Node, nat>, name: Host): nat
    requires Known(history, name)
  {
    var nd :| nd in history && nd.name == name;
    nd.index
  }

  /** Gives a host its old index, or the last of the free ones, and places its new connections there. */
  ghost function PlaceHost(p: Pool, free: seq<nat>, name: Host, extra: seq<nat>, closed: set<nat>, c: nat): (Pool, seq<nat>)
    requires Room(p.conns, name, |extra|, c)
  {
    RoomGivesSlots(p.conns, closed, name, |extra|, c);
    var slots := FreeSlots(p.conns, closed, name, c);
    if Known(p.history, name) then (InsertConns(p, Node(name, IndexOf(p.history, name)), slots, extra), free)
    else if free == [] then (p, free)
    else (InsertConns(p, Node(name, free[|free| - 1]), slots, extra), free[..|free| - 1])
  }

  /** The index that placing a host uses. */
  ghost function PlacedIndex(history: map<Node, nat>, free: seq<nat>, name: Host): nat
    requires Known(history, name) || free != []
  {
    if Known(history, name) then IndexOf(history, name) else free[|free| - 1]
  }

  lemma KnownIndex(p: Pool, c: nat, nd: Node)
    requires PoolInv(p, c) && nd in p.history
    ensures Known(p.history, nd.name) && IndexOf(p.history, nd.name) == nd.index
  {}

  /** What a change of the pool for one host must leave alone: the history, other hosts and open connections. */
  ghost predicate Undisturbed(p: Pool, q: Pool, closed: set<nat>, names: set<Host>) {
    && q.last == p.last
    && (forall nd :: nd in p.history ==> nd in q.history && q.history[nd] == p.history[nd])
    && (forall k: Key :: k.name !in names ==> (k in q.conns <==> k in p.conns))
    && (forall k :: OpenAt(p.conns, closed, k) ==> k in q.conns && q.conns[k] == p.conns[k])
  }

  lemma InsertUndisturbed(p: Pool, nd: Node, extra: seq<nat>, closed: set<nat>, c: nat)
    requires |extra| <= |FreeSlots(p.conns, closed, nd.name, c)|
    ensures Undisturbed(p, InsertConns(p, nd, FreeSlots(p.conns, closed, nd.name, c), extra), closed, {nd.name})
  {
    var slots := FreeSlots(p.conns, closed, nd.name, c);
    FreeIdsAreFree(OpenSlots(p.conns, closed, nd.name), c);
    InsertConnsEffect(p, nd, slots, extra);
    var q := InsertConns(p, nd, slots, extra);
    forall k | OpenAt(p.conns, closed, k) ensures k in q.conns && q.conns[k] == p.conns[k] {
      if k.name == nd.name {
        assert k.slot in OpenSlots(p.conns, closed, nd.name);
        assert k.slot !in slots;
        assert k.slot !in slots[..|extra|];
      }
    }
  }

  lemma InsertValid(p: Pool, nd: Node, extra: seq<nat>, closed: set<nat>, c: nat)
    requires PoolInv(p, c) && |extra| <= |FreeSlots(p.conns, closed, nd.name, c)|
    requires nd in p.history || !Known(p.history, nd.name)
    ensures PoolInv(InsertConns(p, nd, FreeSlots(p.conns, closed, nd.name, c), extra), c)
  {
    var slots := FreeSlots(p.conns, closed, nd.name, c);
    FreeIdsAreFree(OpenSlots(p.conns, closed, nd.name), c);
    InsertConnsEffect(p, nd, slots, extra);
    InsertKeepsInv(p, InsertConns(p, nd, slots, extra), nd, slots, extra, c);
  }

  lemma PlaceHostKeeps(p: Pool, free: seq<nat>, name: Host, extra: seq<nat>, closed: set<nat>, c: nat)
    requires PoolInv(p, c) && Room(p.conns, name, |extra|, c)
    ensures PoolInv(PlaceHost(p, free, name, extra, closed, c).0, c)
    ensures Undisturbed(p, PlaceHost(p, free, name, extra, closed, c).0, closed, {name})
  {
    if Known(p.history, name) || free != [] {
      var nd := Node(name, PlacedIndex(p.history, free, name));
      RoomGivesSlots(p.conns, closed, name, |extra|, c);
      InsertValid(p, nd, extra, closed, c);
      InsertUndisturbed(p, nd, extra, closed, c);
    }
  }

  lemma InsertKeepsInv(p: Pool, q: Pool, nd: Node, slots: seq<nat>, extra: seq<nat>, c: nat)
    requires PoolInv(p, c) && |extra| <= |slots| && (forall s :: s in slots ==> s < c)
    requires nd in p.history || !Known(p.history, nd.name)
    requires forall k :: k in q.conns <==> k in p.conns || (NodeOf(k) == nd && k.slot in slots[..|extra|])
    requires q.history == if extra == [] || nd in p.history then p.history else p.history[nd := slots[0]]
    requires q.last == p.last
    ensures PoolInv(q, c)
  {
    assert forall s :: s in slots[..|extra|] ==> s in slots;
    assert nd !in p.history ==> |p.history[nd := 0]| == |p.history| + 1;
    assert extra != [] ==> slots[0] in slots;
    if extra != [] && nd !in p.history {
      assert q.history.Keys == p.history.Keys + {nd};
      assert |q.history| == |q.history.Keys| == |p.history| + 1;
    }
    forall k | k in q.conns ensures k.slot < c && NodeOf(k) in q.history {
      if k !in p.conns {
        assert extra != [];
      }
    }
  }

  // ---- Placing all hosts ----

  ghost predicate AllRoom(conns: map<Key, nat>, names: seq<Host>, extra: map<Host, seq<nat>>, c: nat) {
    forall name :: name in names ==> name in extra && Room(conns, name, |extra[name]|, c)
  }

  /** Every host was connected to at least once. */
  ghost predicate AllGiven(names: seq<Host>, extra: map<Host, seq<nat>>) {
    forall name :: name in names ==> name in extra && extra[name] != []
  }

  lemma RoomKept(p: Pool, q: Pool, closed: set<nat>, names: set<Host>, name: Host, count: nat, c: nat)
    requires Undisturbed(p, q, closed, names) && name !in names && Room(p.conns, name, count, c)
    ensures Room(q.conns, name, count, c)
  {
    assert KeysOf(q.conns, name) == KeysOf(p.conns, name);
  }

  ghost function HostSet(names: seq<Host>): set<Host> {
    set name | name in names
  }

  /** Places the hosts one after another, in the iteration order `names`. */
  ghost function PlaceHosts(p: Pool, free: seq<nat>, names: seq<Host>, extra: map<Host, seq<nat>>, closed: set<nat>, c: nat)
    : (r: (Pool, seq<nat>))
    requires PoolInv(p, c) && Distinct(names) && AllRoom(p.conns, names, extra, c)
    ensures PoolInv(r.0, c) && Undisturbed(p, r.0, closed, HostSet(names))
    decreases |names|
  {
    if names == [] then (p, free)
    else
      var i := |names| - 1;
      var before := PlaceHosts(p, free, names[..i], extra, closed, c);
      PlaceNext(p, before.0, before.1, names, extra, closed, c);
      PlaceHost(before.0, before.1, names[i], extra[names[i]], closed, c)
  }

  lemma UndisturbedTwice(p: Pool, q: Pool, r: Pool, closed: set<nat>, a: set<Host>, b: set<Host>)
    requires Undisturbed(p, q, closed, a) && Undisturbed(q, r, closed, b)
    ensures Undisturbed(p, r, closed, a + b)
  {
    forall k | OpenAt(p.conns, closed, k) ensures k in r.conns && r.conns[k] == p.conns[k] {
      assert OpenAt(q.conns, closed, k);
    }
  }

  lemma NextHasRoom(p: Pool, q: Pool, names: seq<Host>, extra: map<Host, seq<nat>>, closed: set<nat>, c: nat)
    requires names != [] && Distinct(names) && AllRoom(p.conns, names, extra, c)
    requires Undisturbed(p, q, closed, HostSet(names[..|names| - 1]))
    ensures names[|names| - 1] in extra && Room(q.conns, names[|names| - 1], |extra[names[|names| - 1]]|, c)
  {
    var i := |names| - 1;
    assert names[i] in names && names[i] !in names[..i];
    RoomKept(p, q, closed, HostSet(names[..i]), names[i], |extra[names[i]]|, c);
  }

  lemma HostSetAppend(names: seq<Host>)
    requires names != []
    ensures HostSet(names) == HostSet(names[..|names| - 1]) + {names[|names| - 1]}
  {
    assert names == names[..|names| - 1] + [names[|names| - 1]];
  }

  lemma PlaceNext(p: Pool, q: Pool, free: seq<nat>, names: seq<Host>, extra: map<Host, seq<nat>>, closed: set<nat>, c: nat)
    requires names != [] && Distinct(names) && AllRoom(p.conns, names, extra, c) && PoolInv(q, c)
    requires Undisturbed(p, q, closed, HostSet(names[..|names| - 1]))
    ensures var name := names[|names| - 1];
            && name in extra && Room(q.conns, name, |extra[name]|, c)
            && PoolInv(PlaceHost(q, free, name, extra[name], closed, c).0, c)
            && Undisturbed(p, PlaceHost(q, free, name, extra[name], closed, c).0, closed, HostSet(names))
  {
    var i := |names| - 1;
    var name := names[i];
    NextHasRoom(p, q, names, extra, closed, c);
    PlaceHostKeeps(q, free, name, extra[name], closed, c);
    HostSetAppend(names);
    UndisturbedTwice(p, q, PlaceHost(q, free, name, extra[name], closed, c).0, closed, HostSet(names[..i]), {name});
  }

  /** Unfolds the last placement. */
  lemma LastPlacement(p: Pool, free: seq<nat>, names: seq<Host>, extra: map<Host, seq<nat>>, closed: set<nat>, c: nat)
    returns (q: Pool, rest: seq<nat>, name: Host)
    requires PoolInv(p, c) && Distinct(names) && AllRoom(p.conns, names, extra, c) && names != []
    ensures Distinct(names[..|names| - 1]) && AllRoom(p.conns, names[..|names| - 1], extra, c)
    ensures (q, rest) == PlaceHosts(p, free, names[..|names| - 1], extra, closed, c)
    ensures name == names[|names| - 1] && name in names && name in extra
    ensures PoolInv(q, c) && Room(q.conns, name, |extra[name]|, c)
    ensures PlaceHosts(p, free, names, extra, closed, c) == PlaceHost(q, rest, name, extra[name], closed, c)
  {
    var before := PlaceHosts(p, free, names[..|names| - 1], extra, closed, c);
    q, rest, name := before.0, before.1, names[|names| - 1];
    PlaceNext(p, q, rest, names, extra, closed, c);
  }

  lemma AllButTheLast(p: Pool, names: seq<Host>, extra: map<Host, seq<nat>>, c: nat)
    requires names != [] && Distinct(names) && AllRoom(p.conns, names, extra, c) && AllGiven(names, extra)
    ensures var less := names[..|names| - 1]; Distinct(less) && AllRoom(p.conns, less, extra, c) && AllGiven(less, extra)
    ensures names[|names| - 1] in extra && extra[names[|names| - 1]] != []
  {
    assert names[|names| - 1] in names;
  }

  function UsedNodes(conns: map<Key, nat>): set<nat> {
    set k | k in conns :: k.node
  }

  /** The section under the write lock. */
  ghost function SyncWrite(p: Pool, followers: seq<Host>, names: seq<Host>, extra: map<Host, seq<nat>>, closed: set<nat>, c: nat)
    : (q: Pool)
    requires PoolInv(p, c) && Distinct(names) && AllRoom(p.conns, names, extra, c)
    ensures PoolInv(q, c) && Undisturbed(p, q, closed, HostSet(names))
  {
    PlaceHosts(p, FreeIds(UsedNodes(p.conns), |followers|), names, extra, closed, c).0
  }

  /**
   * The pool may have lost closed connections since the snapshot, but what was found to be required then still fits:
   * every free-slot index used is in range.
   */
  lemma RequiredStillFits(snapshot: map<Key, nat>, conns: map<Key, nat>, followers: seq<Host>, name: Host, count: nat, c: nat)
    requires forall k :: k in conns ==> k in snapshot
    requires name in Required(snapshot, followers, c) && count <= Required(snapshot, followers, c)[name]
    ensures Room(conns, name, count, c)
  {
    SubsetSize(KeysOf(conns, name), KeysOf(snapshot, name));
  }
}
