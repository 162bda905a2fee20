/** Every pooled connection has one place: connections are new when they are placed, and are placed once. */
module FollowerIds {
  import opened Collections
  import opened FollowerPool
  import opened FollowerSync

  /** The new connections of all hosts are different from one another and from those in use. */
  ghost predicate NewIds(used: set<nat>, names: seq<Host>, extra: map<Host, seq<nat>>) {
    && (forall name :: name in names ==> name in extra && Distinct(extra[name]) && Unused(used, extra[name]))
    && (forall a, b, e :: a in names && b in names && a != b && e in extra[a] ==> e !in extra[b])
  }

  ghost predicate Unused(used: set<nat>, ids: seq<nat>) {
    forall e :: e in ids ==> e !in used
  }

  /** Where the connections of a pool come from. */
  ghost predicate ComeFrom(conns: map<Key, nat>, used: set<nat>, names: seq<Host>, extra: map<Host, seq<nat>>) {
    forall k :: k in conns ==> conns[k] in used || exists name :: name in names && name in extra && conns[k] in extra[name]
  }

  lemma InsertedValues(p: Pool, nd: Node, slots: seq<nat>, extra: seq<nat>, k: Key)
    requires |extra| <= |slots| && Distinct(slots) && k in InsertConns(p, nd, slots, extra).conns
    ensures var v := InsertConns(p, nd, slots, extra).conns[k];
            || (exists i :: 0 <= i < |extra| && k == KeyAt(nd, slots[i]) && v == extra[i])
            || (k in p.conns && v == p.conns[k])
  {
    InsertConnsEffect(p, nd, slots, extra);
    if NodeOf(k) == nd && k.slot in slots[..|extra|] {
      var i :| 0 <= i < |extra| && slots[i] == k.slot;
      assert k == KeyAt(nd, slots[i]);
    }
  }

  lemma InsertOnePlace(p: Pool, nd: Node, slots: seq<nat>, extra: seq<nat>)
    requires |extra| <= |slots| && Distinct(slots) && Distinct(extra)
    requires OnePlaceEach(p.conns) && Unused(p.conns.Values, extra)
    ensures OnePlaceEach(InsertConns(p, nd, slots, extra).conns)
    ensures forall k :: k in InsertConns(p, nd, slots, extra).conns ==>
              var v := InsertConns(p, nd, slots, extra).conns[k]; v in p.conns.Values || v in extra
  {
    var q := InsertConns(p, nd, slots, extra);
    forall k | k in q.conns ensures q.conns[k] in p.conns.Values || q.conns[k] in extra {
      InsertedValues(p, nd, slots, extra, k);
    }
    forall a, b | a in q.conns && b in q.conns && q.conns[a] == q.conns[b] ensures a == b {
      InsertedValues(p, nd, slots, extra, a);
      InsertedValues(p, nd, slots, extra, b);
    }
  }

  lemma PlaceHostOnePlace(p: Pool, free: seq<nat>, name: Host, extra: seq<nat>, closed: set<nat>, c: nat)
    requires Room(p.conns, name, |extra|, c) && Distinct(extra) && OnePlaceEach(p.conns) && Unused(p.conns.Values, extra)
    ensures var q := PlaceHost(p, free, name, extra, closed, c).0;
            OnePlaceEach(q.conns) && forall k :: k in q.conns ==> q.conns[k] in p.conns.Values || q.conns[k] in extra
  {
    if Known(p.history, name) || free != [] {
      RoomGivesSlots(p.conns, closed, name, |extra|, c);
      FreeIdsAreFree(OpenSlots(p.conns, closed, name), c);
      InsertOnePlace(p, Node(name, PlacedIndex(p.history, free, name)), FreeSlots(p.conns, closed, name, c), extra);
    }
  }

  /** The next host's new connections are not among those placed before. */
  lemma StillUnused(q: Pool, used: set<nat>, names: seq<Host>, extra: map<Host, seq<nat>>)
    requires names != [] && Distinct(names) && NewIds(used, names, extra)
    requires ComeFrom(q.conns, used, names[..|names| - 1], extra)
    ensures names[|names| - 1] in extra && Unused(q.conns.Values, extra[names[|names| - 1]])
  {
    var i := |names| - 1;
    assert names[i] in names && forall x :: x in names[..i] ==> x in names && x != names[i];
    forall k | k in q.conns ensures q.conns[k] !in extra[names[i]] {
      if q.conns[k] !in used {
        var name :| name in names[..i] && name in extra && q.conns[k] in extra[name];
      }
    }
  }

  lemma NewIdsBefore(used: set<nat>, names: seq<Host>, extra: map<Host, seq<nat>>)
    requires names != [] && NewIds(used, names, extra)
    ensures NewIds(used, names[..|names| - 1], extra)
    ensures names[|names| - 1] in extra && Distinct(extra[names[|names| - 1]])
  {
    assert forall x :: x in names[..|names| - 1] ==> x in names;
    assert names[|names| - 1] in names;
  }

  lemma {:induction false} PlacingOnePlace(p: Pool, free: seq<nat>, names: seq<Host>, extra: map<Host, seq<nat>>,
                                          closed: set<nat>, c: nat, used: set<nat>)
    requires PoolInv(p, c) && Distinct(names) && AllRoom(p.conns, names, extra, c)
    requires OnePlaceEach(p.conns) && p.conns.Values <= used && NewIds(used, names, extra)
    ensures var q := PlaceHosts(p, free, names, extra, closed, c).0;
            OnePlaceEach(q.conns) && ComeFrom(q.conns, used, names, extra)
    decreases |names|
  {
    if names != [] {
      NewIdsBefore(used, names, extra);
      var q, rest, last := LastPlacement(p, free, names, extra, closed, c);
      PlacingOnePlace(p, free, names[..|names| - 1], extra, closed, c, used);
      StillUnused(q, used, names, extra);
      PlaceHostOnePlace(q, rest, last, extra[last], closed, c);
      StillComeFrom(q, PlaceHost(q, rest, last, extra[last], closed, c).0, used, names, extra);
    }
  }

  lemma StillComeFrom(q: Pool, r: Pool, used: set<nat>, names: seq<Host>, extra: map<Host, seq<nat>>)
    requires names != [] && names[|names| - 1] in extra && ComeFrom(q.conns, used, names[..|names| - 1], extra)
    requires forall k :: k in r.conns ==> r.conns[k] in q.conns.Values || r.conns[k] in extra[names[|names| - 1]]
    ensures ComeFrom(r.conns, used, names, extra)
  {
    forall k | k in r.conns
      ensures r.conns[k] in used || exists name :: name in names && name in extra && r.conns[k] in extra[name]
    {
      if r.conns[k] in q.conns.Values {
        var k' :| k' in q.conns && q.conns[k'] == r.conns[k];
        if q.conns[k'] !in used {
          var name :| name in names[..|names| - 1] && name in extra && q.conns[k'] in extra[name];
          assert name in names;
        }
      } else {
        assert names[|names| - 1] in names;
      }
    }
  }

  /** The write section gives every new connection one place and leaves the others theirs. */
  lemma SyncKeepsOnePlace(p: Pool, followers: seq<Host>, names: seq<Host>, extra: map<Host, seq<nat>>, closed: set<nat>,
                          c: nat, used: set<nat>)
    requires PoolInv(p, c) && Distinct(names) && AllRoom(p.conns, names, extra, c)
    requires OnePlaceEach(p.conns) && p.conns.Values <= used && NewIds(used, names, extra)
    ensures OnePlaceEach(SyncWrite(p, followers, names, extra, closed, c).conns)
  {
    PlacingOnePlace(p, FreeIds(UsedNodes(p.conns), |followers|), names, extra, closed, c, used);
  }

  lemma DroppingKeepsOnePlace(before: map<Key, nat>, after: map<Key, nat>, closed: set<nat>)
    requires OnePlaceEach(before) && OnlyClosedDropped(before, after, closed)
    ensures OnePlaceEach(after)
  {}
}
