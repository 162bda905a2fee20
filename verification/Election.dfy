/** Finding the leader and the followers from what the nodes report. */
module Election {
  import opened Bytes
  import opened Collections
  import opened FollowerPool
  import opened FollowerSync

  datatype Topology = Topology(leader: Host, followers: seq<Host>)
  datatype NodeData = NodeData(host: Host, health: string, leaderId: string)

  type Nodes = map<Host, NodeData>

  const ACTIVE_LEADER := "active_leader"
  const ACTIVE_FOLLOWER := "active_follower"

  /** The iteration orders of a hash map with these keys. */
  ghost predicate Arranges(order: seq<string>, keys: set<string>) {
    Distinct(order) && forall k :: k in order <==> k in keys
  }

  /** Walks a hash map in whatever order it comes. */
  method Iterate(keys: set<string>) returns (order: seq<string>)
    ensures Arranges(order, keys)
  {
    order := [];
    var todo := keys;
    while todo != {}
      invariant todo <= keys && Arranges(order, keys - todo)
      decreases todo
    {
      var k :| k in todo;
      assert k !in order;
      order := order + [k];
      todo := todo - {k};
    }
    assert keys - todo == keys;
  }

  // ---- The votes ----

  ghost predicate Keyed(nodes: Nodes) {
    forall h :: h in nodes ==> nodes[h].host == h
  }

  /** The nodes among `hosts` that report `id` as their leader. */
  function Backers(nodes: Nodes, hosts: seq<Host>, id: string): set<Host> {
    set h | h in hosts && h in nodes && nodes[h].leaderId == id
  }

  ghost function Votes(nodes: Nodes, id: string): nat {
    |set h | h in nodes && nodes[h].leaderId == id|
  }

  ghost function Reported(nodes: Nodes): set<string> {
    set h | h in nodes && nodes[h].leaderId != "" :: nodes[h].leaderId
  }

  /** No reported leader has more votes. */
  ghost predicate Top(nodes: Nodes, id: string) {
    id in Reported(nodes) && forall other :: other in Reported(nodes) ==> Votes(nodes, other) <= Votes(nodes, id)
  }

  lemma NextBacker(nodes: Nodes, order: seq<Host>, i: nat, id: string)
    requires i < |order| && Distinct(order) && order[i] in nodes
    ensures |Backers(nodes, order[..i + 1], id)| ==
            |Backers(nodes, order[..i], id)| + if nodes[order[i]].leaderId == id then 1 else 0
  {
    assert order[..i + 1] == order[..i] + [order[i]] && order[i] !in order[..i];
    var more, less := Backers(nodes, order[..i + 1], id), Backers(nodes, order[..i], id);
    assert more == if nodes[order[i]].leaderId == id then less + {order[i]} else less;
  }

  /** The votes of the nodes among `hosts`. */
  ghost predicate Tallied(votes: map<string, nat>, nodes: Nodes, hosts: seq<Host>) {
    && (forall id :: id in votes <==> id != "" && Backers(nodes, hosts, id) != {})
    && (forall id :: id in votes ==> votes[id] == |Backers(nodes, hosts, id)|)
  }

  function Voted(votes: map<string, nat>, id: string): map<string, nat> {
    if id == "" then votes else votes[id := (if id in votes then votes[id] else 0) + 1]
  }

  lemma NextVote(votes: map<string, nat>, nodes: Nodes, order: seq<Host>, i: nat)
    requires i < |order| && Distinct(order) && order[i] in nodes && Tallied(votes, nodes, order[..i])
    ensures Tallied(Voted(votes, nodes[order[i]].leaderId), nodes, order[..i + 1])
  {
    var votes' := Voted(votes, nodes[order[i]].leaderId);
    forall id ensures id in votes' <==> id != "" && Backers(nodes, order[..i + 1], id) != {} {
      NextBacker(nodes, order, i, id);
    }
    forall id | id in votes' ensures votes'[id] == |Backers(nodes, order[..i + 1], id)| {
      NextBacker(nodes, order, i, id);
    }
  }

  method CountVotes(nodes: Nodes, order: seq<Host>) returns (votes: map<string, nat>)
    requires Arranges(order, nodes.Keys)
    ensures votes.Keys == Reported(nodes)
    ensures forall id :: id in votes ==> votes[id] == Votes(nodes, id)
  {
    votes := map[];
    for i := 0 to |order|
      invariant Tallied(votes, nodes, order[..i])
    {
      assert order[i] in order;
      NextVote(votes, nodes, order, i);
      var id := nodes[order[i]].leaderId;
      if id != "" {
        votes := votes[id := (if id in votes then votes[id] else 0) + 1];
      }
    }
    assert order[..|order|] == order;
    forall id ensures Backers(nodes, order, id) == set h | h in nodes && nodes[h].leaderId == id {}
    ReportedHaveBackers(nodes, order);
  }

  lemma ReportedHaveBackers(nodes: Nodes, order: seq<Host>)
    requires Arranges(order, nodes.Keys)
    ensures forall id :: id in Reported(nodes) <==> id != "" && Backers(nodes, order, id) != {}
  {
    forall id ensures id in Reported(nodes) <==> id != "" && Backers(nodes, order, id) != {} {
      if id != "" && Backers(nodes, order, id) != {} {
        var h :| h in Backers(nodes, order, id);
        assert nodes[h].leaderId in Reported(nodes);
      }
      if id in Reported(nodes) {
        var h :| h in nodes && nodes[h].leaderId == id;
        assert h in Backers(nodes, order, id);
      }
    }
  }

  /** The id with most votes, the last such in iteration order. */
  ghost function MostVoted(nodes: Nodes, ids: seq<string>): (r: Option<string>) {
    if ids == [] then None
    else
      var last := ids[|ids| - 1];
      var rest := MostVoted(nodes, ids[..|ids| - 1]);
      if rest.Some? && Votes(nodes, last) < Votes(nodes, rest.value) then rest else Some(last)
  }

  lemma {:induction false} MostVotedIsTop(nodes: Nodes, ids: seq<string>)
    ensures MostVoted(nodes, ids).None? <==> ids == []
    ensures var r := MostVoted(nodes, ids);
            r.Some? ==> r.value in ids && forall id :: id in ids ==> Votes(nodes, id) <= Votes(nodes, r.value)
  {
    if ids != [] {
      var i := |ids| - 1;
      MostVotedIsTop(nodes, ids[..i]);
      assert ids == ids[..i] + [ids[i]];
    }
  }

  method PickLeaderId(nodes: Nodes, votes: map<string, nat>, ids: seq<string>) returns (best: Option<string>)
    requires forall id :: id in ids ==> id in votes && votes[id] == Votes(nodes, id)
    ensures best == MostVoted(nodes, ids)
  {
    best := None;
    for i := 0 to |ids|
      invariant best == MostVoted(nodes, ids[..i]) && (best.Some? ==> best.value in votes)
      invariant best.Some? ==> votes[best.value] == Votes(nodes, best.value)
    {
      assert ids[..i + 1][..i] == ids[..i] && ids[i] in ids;
      if best.None? || votes[ids[i]] >= votes[best.value] {
        best := Some(ids[i]);
      }
    }
    assert ids[..|ids|] == ids;
  }

  // ---- The roles ----

  predicate HasRole(nodes: Nodes, id: string, role: string, h: Host) {
    h in nodes && nodes[h].leaderId == id && nodes[h].health == role
  }

  ghost function LastLeader(nodes: Nodes, order: seq<Host>, id: string): (r: Option<Host>)
    ensures r.Some? ==> r.value in order && HasRole(nodes, id, ACTIVE_LEADER, r.value)
    ensures r.None? ==> forall h :: h in order ==> !HasRole(nodes, id, ACTIVE_LEADER, h)
  {
    if order == [] then None
    else if HasRole(nodes, id, ACTIVE_LEADER, order[|order| - 1]) then Some(order[|order| - 1])
    else
      var rest := order[..|order| - 1];
      assert order == rest + [order[|order| - 1]];
      LastLeader(nodes, rest, id)
  }

  ghost function FollowersIn(nodes: Nodes, order: seq<Host>, id: string): (r: seq<Host>)
    ensures forall h :: h in r <==> h in order && HasRole(nodes, id, ACTIVE_FOLLOWER, h)
    ensures Distinct(order) ==> Distinct(r)
  {
    if order == [] then []
    else
      var last := order[|order| - 1];
      var rest := order[..|order| - 1];
      assert order == rest + [last];
      FollowersIn(nodes, rest, id) + if HasRole(nodes, id, ACTIVE_FOLLOWER, last) then [last] else []
  }

  method SplitRoles(nodes: Nodes, order: seq<Host>, id: string) returns (leader: Option<Host>, followers: seq<Host>)
    requires Keyed(nodes) && forall h :: h in order ==> h in nodes
    ensures leader == LastLeader(nodes, order, id)
    ensures followers == FollowersIn(nodes, order, id)
  {
    leader, followers := None, [];
    for i := 0 to |order|
      invariant leader == LastLeader(nodes, order[..i], id)
      invariant followers == FollowersIn(nodes, order[..i], id)
    {
      assert order[..i + 1][..i] == order[..i] && order[i] in order;
      var node := nodes[order[i]];
      if node.leaderId == id {
        if node.health == ACTIVE_LEADER {
          leader := Some(node.host);
        } else if node.health == ACTIVE_FOLLOWER {
          followers := followers + [node.host];
        }
      }
    }
    assert order[..|order|] == order;
  }

  // ---- The election ----

  /** The outcome when the nodes are walked in the order `hosts` and the votes in the order `ids`. */
  ghost function Elect(nodes: Nodes, hosts: seq<Host>, ids: seq<string>): Option<Topology> {
    match MostVoted(nodes, ids)
    case None => None
    case Some(id) =>
      match LastLeader(nodes, hosts, id)
      case None => None
      case Some(leader) => Some(Topology(leader, FollowersIn(nodes, hosts, id)))
  }

  /** The outcome is one of those possible for some iteration orders of the two maps. */
  ghost predicate Possible(nodes: Nodes, topo: Option<Topology>, hosts: seq<Host>, ids: seq<string>) {
    Arranges(hosts, nodes.Keys) && Arranges(ids, Reported(nodes)) && topo == Elect(nodes, hosts, ids)
  }

  method HoldElection(nodes: Nodes) returns (topo: Option<Topology>)
    requires Keyed(nodes)
    ensures exists hosts, ids :: Possible(nodes, topo, hosts, ids)
  {
    var order := Iterate(nodes.Keys);
    var votes := CountVotes(nodes, order);
    var candidates := Iterate(votes.Keys);
    var best := PickLeaderId(nodes, votes, candidates);
    topo := None;
    if best.Some? {
      var leader, followers := SplitRoles(nodes, order, best.value);
      topo := if leader.None? then None else Some(Topology(leader.value, followers));
    }
    assert Possible(nodes, topo, order, candidates);
  }

  /** A sound outcome: a most-voted id, a leader that claims it, and exactly the followers that report it. */
  ghost predicate Sound(nodes: Nodes, topo: Topology, id: string) {
    && Top(nodes, id) && HasRole(nodes, id, ACTIVE_LEADER, topo.leader)
    && topo.leader !in topo.followers && Distinct(topo.followers)
    && forall h :: h in topo.followers <==> HasRole(nodes, id, ACTIVE_FOLLOWER, h)
  }

  lemma ElectionIsSound(nodes: Nodes, hosts: seq<Host>, ids: seq<string>)
    requires Arranges(hosts, nodes.Keys) && Arranges(ids, Reported(nodes))
    ensures Elect(nodes, hosts, ids).Some? ==>
              exists id :: Sound(nodes, Elect(nodes, hosts, ids).value, id)
    ensures Elect(nodes, hosts, ids).None? ==>
              Reported(nodes) == {} || exists id :: Top(nodes, id) && forall h :: !HasRole(nodes, id, ACTIVE_LEADER, h)
  {
    MostVotedIsTop(nodes, ids);
    match MostVoted(nodes, ids)
    case None =>
      assert forall id :: id in Reported(nodes) ==> id in ids;
    case Some(id) =>
      assert Top(nodes, id);
      match LastLeader(nodes, hosts, id)
      case None =>
      case Some(leader) =>
        assert Sound(nodes, Topology(leader, FollowersIn(nodes, hosts, id)), id);
  }

  // ---- Majorities ----

  ghost function Reporting(nodes: Nodes): set<Host> {
    set h | h in nodes && nodes[h].leaderId != ""
  }

  lemma TwoShares(nodes: Nodes, id: string, other: string)
    requires id in Reported(nodes) && other in Reported(nodes) && id != other
    ensures Votes(nodes, id) + Votes(nodes, other) <= |Reporting(nodes)|
  {
    var mine := set h | h in nodes && nodes[h].leaderId == id;
    var theirs := set h | h in nodes && nodes[h].leaderId == other;
    assert mine !! theirs;
    SubsetSize(mine + theirs, Reporting(nodes));
  }

  /** An id reported by more than half of the reporting nodes is chosen, whatever the iteration orders. */
  lemma MajorityWins(nodes: Nodes, ids: seq<string>, id: string)
    requires Arranges(ids, Reported(nodes)) && id in Reported(nodes)
    requires 2 * Votes(nodes, id) > |Reporting(nodes)|
    ensures MostVoted(nodes, ids) == Some(id)
  {
    MostVotedIsTop(nodes, ids);
    assert id in ids;
    var best := MostVoted(nodes, ids).value;
    if best != id {
      TwoShares(nodes, id, best);
    }
  }

  /** More than half of the reporting nodes report the id. */
  ghost predicate Majority(nodes: Nodes, id: string) {
    id in Reported(nodes) && 2 * Votes(nodes, id) > |Reporting(nodes)|
  }

  /** The id picked has a majority exactly when some id has, whatever the iteration orders. */
  lemma PickHasMajorityIff(nodes: Nodes, ids: seq<string>)
    requires Arranges(ids, Reported(nodes))
    ensures (exists id :: Majority(nodes, id)) <==>
            MostVoted(nodes, ids).Some? && Majority(nodes, MostVoted(nodes, ids).value)
  {
    if id :| Majority(nodes, id) {
      MajorityWins(nodes, ids, id);
    }
  }

  /** Four nodes: two report "x", one "y", one "z". */
  const SPLIT_VOTE: Nodes :=
    map["a" := NodeData("a", ACTIVE_LEADER, "x"), "b" := NodeData("b", ACTIVE_FOLLOWER, "x"),
        "c" := NodeData("c", ACTIVE_FOLLOWER, "y"), "d" := NodeData("d", ACTIVE_FOLLOWER, "z")]

  lemma SplitVotes()
    ensures Reported(SPLIT_VOTE) == {"x", "y", "z"} && |Reporting(SPLIT_VOTE)| == 4
    ensures Votes(SPLIT_VOTE, "x") == 2 && Votes(SPLIT_VOTE, "y") == 1 && Votes(SPLIT_VOTE, "z") == 1
  {
    var n := SPLIT_VOTE;
    assert n["a"].leaderId == "x" && n["c"].leaderId == "y" && n["d"].leaderId == "z";
    assert Reporting(n) == {"a", "b", "c", "d"};
    assert (set h | h in n && n[h].leaderId == "x") == {"a", "b"};
    assert (set h | h in n && n[h].leaderId == "y") == {"c"};
    assert (set h | h in n && n[h].leaderId == "z") == {"d"};
  }

  /** A leader is elected without a majority: "a", in every iteration order, with two of four votes. */
  lemma PluralityIsEnough(hosts: seq<Host>, ids: seq<string>)
    requires Arranges(hosts, SPLIT_VOTE.Keys) && Arranges(ids, Reported(SPLIT_VOTE))
    ensures Elect(SPLIT_VOTE, hosts, ids).Some? && Elect(SPLIT_VOTE, hosts, ids).value.leader == "a"
    ensures MostVoted(SPLIT_VOTE, ids) == Some("x") && !exists id :: Majority(SPLIT_VOTE, id)
  {
    SplitVotes();
    MostVotedIsTop(SPLIT_VOTE, ids);
    assert "x" in ids;
    OnlyContenderElected(SPLIT_VOTE, "x", "a", hosts, ids);
    PickHasMajorityIff(SPLIT_VOTE, ids);
  }

  // ---- When the iteration order does not matter ----

  ghost predicate SameOutcome(a: Option<Topology>, b: Option<Topology>) {
    && (a.Some? <==> b.Some?)
    && (a.Some? ==> a.value.leader == b.value.leader && HostSet(a.value.followers) == HostSet(b.value.followers))
  }

  ghost predicate OrderIrrelevant(nodes: Nodes) {
    forall hosts, ids, hosts', ids' ::
      Arranges(hosts, nodes.Keys) && Arranges(ids, Reported(nodes)) &&
      Arranges(hosts', nodes.Keys) && Arranges(ids', Reported(nodes)) ==>
        SameOutcome(Elect(nodes, hosts, ids), Elect(nodes, hosts', ids'))
  }

  /** A most-voted id together with a node that claims to be that leader. */
  ghost predicate Contender(nodes: Nodes, id: string, h: Host) {
    Top(nodes, id) && HasRole(nodes, id, ACTIVE_LEADER, h)
  }

  /** Nobody can be elected, or there is one most-voted id and one node that claims it. */
  ghost predicate Settled(nodes: Nodes) {
    || (forall id, h :: !Contender(nodes, id, h))
    || (exists id, h :: Contender(nodes, id, h) && OnlyContender(nodes, id, h))
  }

  ghost predicate OnlyContender(nodes: Nodes, id: string, h: Host) {
    && (forall other :: Top(nodes, other) ==> other == id)
    && (forall other :: HasRole(nodes, id, ACTIVE_LEADER, other) ==> other == h)
  }

  lemma {:induction false} Arrangement(keys: set<string>) returns (order: seq<string>)
    ensures Arranges(order, keys)
    decreases keys
  {
    order := [];
    if keys != {} {
      var k :| k in keys;
      order := Arrangement(keys - {k});
      order := order + [k];
    }
  }

  lemma ArrangementEndingIn(keys: set<string>, k: string) returns (order: seq<string>)
    requires k in keys
    ensures Arranges(order, keys) && order != [] && order[|order| - 1] == k
  {
    order := Arrangement(keys - {k});
    order := order + [k];
  }

  /** Some iteration order of the votes chooses a given most-voted id. */
  lemma TopCanBePicked(nodes: Nodes, id: string) returns (ids: seq<string>)
    requires Top(nodes, id)
    ensures Arranges(ids, Reported(nodes)) && MostVoted(nodes, ids) == Some(id)
  {
    ids := ArrangementEndingIn(Reported(nodes), id);
    MostVotedIsTop(nodes, ids[..|ids| - 1]);
  }

  /** Some iteration orders elect a given contender. */
  lemma ContenderCanWin(nodes: Nodes, id: string, h: Host) returns (hosts: seq<Host>, ids: seq<string>)
    requires Contender(nodes, id, h)
    ensures Arranges(hosts, nodes.Keys) && Arranges(ids, Reported(nodes))
    ensures Elect(nodes, hosts, ids).Some? && Elect(nodes, hosts, ids).value.leader == h
  {
    ids := TopCanBePicked(nodes, id);
    hosts := ArrangementEndingIn(nodes.Keys, h);
  }

  lemma SettledIsEnough(nodes: Nodes, hosts: seq<Host>, ids: seq<string>, hosts': seq<Host>, ids': seq<string>)
    requires Settled(nodes)
    requires Arranges(hosts, nodes.Keys) && Arranges(ids, Reported(nodes))
    requires Arranges(hosts', nodes.Keys) && Arranges(ids', Reported(nodes))
    ensures SameOutcome(Elect(nodes, hosts, ids), Elect(nodes, hosts', ids'))
  {
    if forall id, h :: !Contender(nodes, id, h) {
      NobodyElected(nodes, hosts, ids);
      NobodyElected(nodes, hosts', ids');
    } else {
      var id, h :| Contender(nodes, id, h) && OnlyContender(nodes, id, h);
      OnlyContenderElected(nodes, id, h, hosts, ids);
      OnlyContenderElected(nodes, id, h, hosts', ids');
    }
  }

  lemma NobodyElected(nodes: Nodes, hosts: seq<Host>, ids: seq<string>)
    requires Arranges(hosts, nodes.Keys) && Arranges(ids, Reported(nodes))
    requires forall id, h :: !Contender(nodes, id, h)
    ensures Elect(nodes, hosts, ids).None?
  {
    ElectionIsSound(nodes, hosts, ids);
    if Elect(nodes, hosts, ids).Some? {
      var id :| Sound(nodes, Elect(nodes, hosts, ids).value, id);
      assert Contender(nodes, id, Elect(nodes, hosts, ids).value.leader);
    }
  }

  lemma OnlyContenderElected(nodes: Nodes, id: string, h: Host, hosts: seq<Host>, ids: seq<string>)
    requires Arranges(hosts, nodes.Keys) && Arranges(ids, Reported(nodes))
    requires Contender(nodes, id, h) && OnlyContender(nodes, id, h)
    ensures Elect(nodes, hosts, ids).Some? && Elect(nodes, hosts, ids).value.leader == h
    ensures HostSet(Elect(nodes, hosts, ids).value.followers) == set x | x in nodes && HasRole(nodes, id, ACTIVE_FOLLOWER, x)
  {
    MostVotedIsTop(nodes, ids);
    assert id in ids;
    assert Top(nodes, MostVoted(nodes, ids).value);
    assert h in hosts;
  }

  /** Two orders with different outcomes, when the node map is not settled. */
  lemma UnsettledMatters(nodes: Nodes) returns (hosts: seq<Host>, ids: seq<string>, hosts': seq<Host>, ids': seq<string>)
    requires !Settled(nodes)
    ensures Arranges(hosts, nodes.Keys) && Arranges(ids, Reported(nodes))
    ensures Arranges(hosts', nodes.Keys) && Arranges(ids', Reported(nodes))
    ensures !SameOutcome(Elect(nodes, hosts, ids), Elect(nodes, hosts', ids'))
  {
    var id, h :| Contender(nodes, id, h);
    hosts, ids := ContenderCanWin(nodes, id, h);
    assert !OnlyContender(nodes, id, h);
    if other :| Top(nodes, other) && other != id {
      ids' := TopCanBePicked(nodes, other);
      hosts' := hosts;
    } else {
      var other :| HasRole(nodes, id, ACTIVE_LEADER, other) && other != h;
      hosts', ids' := ContenderCanWin(nodes, id, other);
    }
  }

  /** The outcome is the same for every iteration order exactly when the node map is settled. */
  lemma OrderIrrelevantIffSettled(nodes: Nodes)
    ensures OrderIrrelevant(nodes) <==> Settled(nodes)
  {
    if Settled(nodes) {
      forall hosts, ids, hosts', ids' |
        Arranges(hosts, nodes.Keys) && Arranges(ids, Reported(nodes)) &&
        Arranges(hosts', nodes.Keys) && Arranges(ids', Reported(nodes))
        ensures SameOutcome(Elect(nodes, hosts, ids), Elect(nodes, hosts', ids'))
      {
        SettledIsEnough(nodes, hosts, ids, hosts', ids');
      }
    } else {
      var hosts, ids, hosts', ids' := UnsettledMatters(nodes);
    }
  }
}
