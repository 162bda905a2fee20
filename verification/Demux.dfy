/** The table of waiters on one connection, by correlation id. */
module Demux {
  import opened Bytes
  import opened Collections

  /** Whom to answer (a ticket names one reply channel) and since when. */
  datatype Entry = Entry(ticket: nat, sentAt: int)

  function Expired(entries: map<u32, Entry>, threshold: int): set<u32> {
    set id | id in entries && entries[id].sentAt < threshold
  }

  function Kept(entries: map<u32, Entry>, threshold: int): map<u32, Entry> {
    map id | id in entries && entries[id].sentAt >= threshold :: entries[id]
  }

  // ---- The table as the outcome of its operations ----

  datatype Op = Put(id: u32, ticket: nat, sentAt: int) | Take(id: u32) | Clean(threshold: int)

  function Changed(entries: map<u32, Entry>, op: Op): map<u32, Entry> {
    match op
    case Put(id, ticket, sentAt) => entries[id := Entry(ticket, sentAt)]
    case Take(id) => entries - {id}
    case Clean(threshold) => Kept(entries, threshold)
  }

  function Outcome(log: seq<Op>): map<u32, Entry> {
    if log == [] then map[] else Changed(Outcome(log[..|log| - 1]), log[|log| - 1])
  }

  /** Looking back for one id only: the last waiter stored under it, unless it was taken or grew too old since. */
  function Waiter(log: seq<Op>, id: u32): Option<Entry> {
    if log == [] then None
    else
      var before := Waiter(log[..|log| - 1], id);
      match log[|log| - 1]
      case Put(other, ticket, sentAt) => if other == id then Some(Entry(ticket, sentAt)) else before
      case Take(other) => if other == id then None else before
      case Clean(threshold) => if before.Some? && before.value.sentAt < threshold then None else before
  }

  /** The table holds, for every id, exactly the waiter that looking back finds: ids do not affect one another. */
  lemma {:induction false} TableHoldsTheWaiters(log: seq<Op>, id: u32)
    ensures Waiter(log, id) == if id in Outcome(log) then Some(Outcome(log)[id]) else None
  {
    if log != [] {
      TableHoldsTheWaiters(log[..|log| - 1], id);
    }
  }

  class DemuxMap {
    var entries: map<u32, Entry>
    ghost var log: seq<Op>

    constructor ()
      ensures Valid() && log == []
    {
      entries, log := map[], [];
    }

    ghost predicate Valid()
      reads this
    {
      entries == Outcome(log)
    }

    method Store(corrId: u32, ticket: nat, sentAt: int)
      requires Valid()
      modifies this
      ensures Valid() && log == old(log) + [Put(corrId, ticket, sentAt)]
    {
      log := log + [Put(corrId, ticket, sentAt)];
      entries := entries[corrId := Entry(ticket, sentAt)];
    }

    /** Gives the last waiter stored under the id that was neither taken nor answered as too old since. */
    method LoadRemove(corrId: u32) returns (found: Option<Entry>)
      requires Valid()
      modifies this
      ensures Valid() && log == old(log) + [Take(corrId)]
      ensures found == Waiter(old(log), corrId)
    {
      TableHoldsTheWaiters(log, corrId);
      found := if corrId in entries then Some(entries[corrId]) else None;
      log := log + [Take(corrId)];
      entries := entries - {corrId};
    }

    /** Answers with an empty response, and removes, exactly the waiters older than the threshold. */
    method Cleanup(threshold: int) returns (timedOut: seq<u32>, answered: seq<nat>)
      requires Valid()
      modifies this
      ensures Valid() && log == old(log) + [Clean(threshold)]
      ensures Distinct(timedOut) && |answered| == |timedOut|
      ensures forall id :: id in timedOut <==> Overdue(Waiter(old(log), id), threshold)
      ensures forall i :: 0 <= i < |answered| ==>
                var w := Waiter(old(log), timedOut[i]); w.Some? && answered[i] == w.value.ticket
    {
      forall id ensures Waiter(log, id) == if id in entries then Some(entries[id]) else None { TableHoldsTheWaiters(log, id); }
      timedOut := CollectExpired(threshold);
      assert forall id :: id in timedOut <==> id in Ids(timedOut);
      answered := AnswerEmpty(timedOut);
      assert entries == Kept(old(entries), threshold);
      log := log + [Clean(threshold)];
    }

    /** The first pass: the ids that are too old, each once. */
    method CollectExpired(threshold: int) returns (timedOut: seq<u32>)
      ensures Distinct(timedOut) && Ids(timedOut) == Expired(entries, threshold)
    {
      timedOut := [];
      var todo := entries.Keys;
      while todo != {}
        invariant todo <= entries.Keys && Distinct(timedOut)
        invariant Ids(timedOut) == Expired(entries, threshold) - todo
        decreases todo
      {
        var id :| id in todo;
        todo := todo - {id};
        if entries[id].sentAt < threshold {
          assert id !in Ids(timedOut);
          assert Ids(timedOut + [id]) == Ids(timedOut) + {id};
          timedOut := timedOut + [id];
        }
      }
    }

    /** The second pass: removes the given waiters and answers each with an empty response. */
    method AnswerEmpty(timedOut: seq<u32>) returns (answered: seq<nat>)
      requires Distinct(timedOut) && Ids(timedOut) <= entries.Keys
      modifies this`entries
      ensures entries == old(entries) - Ids(timedOut)
      ensures |answered| == |timedOut|
      ensures forall i :: 0 <= i < |answered| ==> timedOut[i] in old(entries) && answered[i] == old(entries)[timedOut[i]].ticket
    {
      answered := [];
      for k := 0 to |timedOut|
        invariant entries == old(entries) - Ids(timedOut[..k])
        invariant |answered| == k
        invariant forall i :: 0 <= i < k ==> timedOut[i] in old(entries) && answered[i] == old(entries)[timedOut[i]].ticket
      {
        var id := timedOut[k];
        assert id in Ids(timedOut) && id !in Ids(timedOut[..k]);
        assert Ids(timedOut[..k + 1]) == Ids(timedOut[..k]) + {id};
        answered := answered + [entries[id].ticket];
        entries := entries - {id};
      }
      assert timedOut[..|timedOut|] == timedOut;
    }
  }

  predicate Overdue(w: Option<Entry>, threshold: int) { w.Some? && w.value.sentAt < threshold }

  ghost function Ids(ids: seq<u32>): set<u32> {
    set id | id in ids
  }
}
