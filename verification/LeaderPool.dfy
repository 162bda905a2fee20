/** The leader connections: a fixed number of slots and the round robin over them. */
module LeaderPool {
  import opened Bytes
  import opened FollowerPool

  /** A leader connection, by number, and the host it was made to. */
  datatype LeaderConn = LeaderConn(id: nat, addr: Host)

  type Slots = seq<Option<LeaderConn>>

  predicate OpenSlot(slots: Slots, closed: set<nat>, i: nat) {
    i < |slots| && slots[i].Some? && slots[i].value.id !in closed
  }

  /** Slot `i` is the first open one in cyclic order after `last`. */
  ghost predicate FirstOpenAfter(slots: Slots, closed: set<nat>, last: nat, i: nat) {
    && last < |slots| && OpenSlot(slots, closed, i)
    && exists j :: 1 <= j <= |slots| && Around(last, j, |slots|) == i &&
                   forall m :: 1 <= m < j ==> !OpenSlot(slots, closed, Around(last, m, |slots|))
  }

  /** Every connection goes to the host. */
  ghost predicate SlotsAt(slots: Slots, host: Option<Host>) {
    forall i :: 0 <= i < |slots| && slots[i].Some? ==> host == Some(slots[i].value.addr)
  }

  /** The slots that are free or hold a closed connection, in order. */
  function ToFill(slots: Slots, closed: set<nat>, n: nat): seq<nat> {
    if n == 0 then [] else ToFill(slots, closed, n - 1) + if OpenSlot(slots, closed, n - 1) then [] else [n - 1]
  }

  lemma {:induction false} ToFillIsEmpty(slots: Slots, closed: set<nat>, n: nat)
    ensures var todo := ToFill(slots, closed, n);
            && (forall i :: 0 <= i < |todo| ==> todo[i] < n && !OpenSlot(slots, closed, todo[i]))
            && (forall i, j :: 0 <= i < j < |todo| ==> todo[i] != todo[j])
            && (forall i: nat :: i < n && !OpenSlot(slots, closed, i) ==> i in todo)
  {
    if n > 0 {
      ToFillIsEmpty(slots, closed, n - 1);
    }
  }

  class LeaderBalancer {
    const c: nat
    var slots: Slots
    var host: Option<Host>
    var last: nat

    constructor (c: nat)
      ensures this.c == c && Valid() && host == None && forall i :: 0 <= i < c ==> slots[i] == None
    {
      this.c, slots, host, last := c, seq(c, _ => None), None, 0;
    }

    ghost predicate Valid()
      reads this
    {
      |slots| == c && (last < c || last == 0)
    }

    method ClearSlots()
      requires Valid()
      modifies this`slots
      ensures Valid() && forall i :: 0 <= i < c ==> slots[i] == None
    {
      for i := 0 to c
        invariant |slots| == c && forall j :: 0 <= j < i ==> slots[j] == None
      {
        slots := slots[i := None];
      }
    }

    method CollectToFill(closed: set<nat>) returns (todo: seq<nat>)
      requires Valid()
      ensures todo == ToFill(slots, closed, c)
    {
      todo := [];
      for i := 0 to c
        invariant todo == ToFill(slots, closed, i)
      {
        if slots[i].None? || slots[i].value.id in closed {
          todo := todo + [i];
        }
      }
    }

    /** What filling the first `n` of the slots `todo` makes of `before`. */
    ghost predicate Filled(before: Slots, todo: seq<nat>, n: nat, connects: seq<Option<nat>>, leader: Host)
      requires n <= |todo| && |before| == |connects|
      reads this
    {
      && |slots| == |before|
      && forall i: nat :: i < |slots| ==>
           slots[i] == if i in todo[..n] && connects[i].Some? then Some(LeaderConn(connects[i].value, leader)) else before[i]
    }

    method FillSlots(leader: Host, todo: seq<nat>, connects: seq<Option<nat>>)
      requires Valid() && |connects| == c && host == Some(leader) && forall i :: i in todo ==> i < c
      modifies this`slots, this`host
      ensures Valid() && host == Some(leader) && Filled(old(slots), todo, |todo|, connects, leader)
    {
      for n := 0 to |todo|
        invariant Valid() && host == Some(leader) && Filled(old(slots), todo, n, connects, leader)
      {
        var i := todo[n];
        assert i in todo && todo[..n + 1] == todo[..n] + [i];
        if connects[i].Some? {
          slots := slots[i := Some(LeaderConn(connects[i].value, leader))];
          host := Some(leader);
        }
      }
    }

    /**
     * A sync without interruption; `connects[i]` is what connecting for slot `i` gives.  An open connection stays unless
     * the leader changed, every other slot takes its new connection, and all connections go to the leader.
     */
    method SyncLeader(leader: Host, closed: set<nat>, connects: seq<Option<nat>>)
      requires Valid() && |connects| == c && SlotsAt(slots, host)
      modifies this`slots, this`host
      ensures Valid() && host == Some(leader) && SlotsAt(slots, host)
      ensures forall i :: 0 <= i < c ==>
                slots[i] == if old(host) == Some(leader) && OpenSlot(old(slots), closed, i) then old(slots[i])
                            else if connects[i].Some? then Some(LeaderConn(connects[i].value, leader))
                            else if old(host) == Some(leader) then old(slots[i]) else None
    {
      if host != Some(leader) {
        ClearSlots();
        host := Some(leader);
      }
      var todo := CollectToFill(closed);
      ToFillIsEmpty(slots, closed, c);
      FillSlots(leader, todo, connects);
      assert todo[..|todo|] == todo;
    }

    /** The first open slot after the last one used, and none only when no slot is open. */
    method NextLeaderConn(closed: set<nat>) returns (found: Option<LeaderConn>)
      requires Valid()
      modifies this`last
      ensures Valid()
      ensures found.Some? <==> exists i :: OpenSlot(slots, closed, i)
      ensures found.Some? ==> FirstOpenAfter(slots, closed, old(last), last) && found == slots[last]
      ensures found.None? ==> last == old(last)
    {
      var next: nat := last + 1;
      if next >= c { next := 0; }
      if |slots| == 0 || !exists i :: 0 <= i < |slots| && slots[i].Some? { return None; }
      var tried := 0;
      while tried < c
        invariant tried <= c
        invariant tried < c ==> next == Around(last, tried + 1, c)
        invariant forall m :: 1 <= m <= tried ==> !OpenSlot(slots, closed, Around(last, m, c))
        invariant last == old(last)
      {
        if slots[next].Some? && slots[next].value.id !in closed {
          found := slots[next];
          assert FirstOpenAfter(slots, closed, last, next);
          last := next;
          return;
        }
        tried := tried + 1;
        next := next + 1;
        if next >= c { next := 0; }
      }
      forall i: nat ensures !OpenSlot(slots, closed, i) {
        if i < |slots| {
          var j := AroundCovers(last, i, c);
          assert Around(last, if j == 0 then c else j, c) == i;
        }
      }
      found := None;
    }
  }
}
